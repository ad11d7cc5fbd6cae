/**
 The `CriticalMove` record and the two pure helpers that fill its
 presentation fields: the side label and the generated comment.
 */
module Records {
  import opened Wrappers

  datatype Color = White | Black

  /** One flagged move, field for field as the analyzer stores it. */
  datatype CriticalMove = CriticalMove(
    gameId: string,
    moveNumber: nat,          // 1-based half-move counter
    move: string,             // the move in SAN
    side: string,             // "Brancas" or "Pretas": who played the move
    evalBefore: real,
    evalAfter: real,
    delta: real,
    positionFen: string,      // the position after the move
    bestMove: Option<string>, // engine's choice for the position before the move
    comment: string)

  function Abs(x: real): (r: real)
    ensures r >= 0.0
    ensures r == x || r == -x
  {
    if x < 0.0 then -x else x
  }

  function Opponent(c: Color): Color {
    if c == White then Black else White
  }

  /** The label the reports use for a colour. */
  function ColorName(c: Color): string {
    if c == White then "Brancas" else "Pretas"
  }

  /**
   The `side` field, computed from the side to move AFTER the move:
   "Brancas" when Black is to move, "Pretas" otherwise. It names the
   player who made the move.
   */
  function SideLabel(turnAfter: Color): (s: string)
    ensures s == ColorName(Opponent(turnAfter))
    ensures s == "Brancas" <==> turnAfter == Black
  {
    if turnAfter == Black then "Brancas" else "Pretas"
  }

  /** Whether a move raised the evaluation or not. */
  datatype Direction = Improvement | Regression

  /** How large a swing was. */
  datatype Bucket = Large | Medium | Small

  /** Swings this large get the strongest wording. */
  const LargeSwing: real := 5.0
  /** Swings this large (and below `LargeSwing`) get the middle wording. */
  const MediumSwing: real := 3.0

  /**
   The direction test of `_generate_move_comment`: a strict rise is an
   improvement, so an unchanged evaluation counts as a regression.
   */
  function DirectionOf(evalBefore: real, evalAfter: real): (d: Direction)
    ensures d == Improvement <==> evalAfter > evalBefore
    ensures d == Regression <==> evalAfter <= evalBefore
  {
    if evalAfter > evalBefore then Improvement else Regression
  }

  /** The size buckets: at least 5, at least 3, anything smaller. */
  function BucketOf(delta: real): (b: Bucket)
    ensures b == Large <==> delta >= LargeSwing
    ensures b == Medium <==> MediumSwing <= delta < LargeSwing
    ensures b == Small <==> delta < MediumSwing
  {
    if delta >= 5.0 then Large else if delta >= 3.0 then Medium else Small
  }

  /** The six fixed comments. */
  function CommentText(d: Direction, b: Bucket): string {
    match (d, b)
    case (Improvement, Large) => "Lance excelente! Melhora significativamente a posição"
    case (Improvement, Medium) => "Bom lance tático que aumenta a vantagem"
    case (Improvement, Small) => "Lance que melhora ligeiramente a posição"
    case (Regression, Large) => "Erro grave! Lance que compromete seriamente a posição"
    case (Regression, Medium) => "Erro tático importante"
    case (Regression, Small) => "Imprecisão que piora a posição"
  }

  /** The six comments are pairwise different: a comment tells its direction and bucket. */
  lemma CommentTextsDistinct(d1: Direction, b1: Bucket, d2: Direction, b2: Bucket)
    requires CommentText(d1, b1) == CommentText(d2, b2)
    ensures d1 == d2 && b1 == b2
  {
  }

  /** A comment text names exactly one direction and one bucket. */
  lemma CommentTextIdentifies(d: Direction, b: Bucket)
    ensures forall d', b' :: CommentText(d', b') == CommentText(d, b) ==> d' == d && b' == b
  {
    forall d', b' | CommentText(d', b') == CommentText(d, b) ensures d' == d && b' == b {
      CommentTextsDistinct(d', b', d, b);
    }
  }

  /**
   `_generate_move_comment`: the comment is the text of direction `d` and
   bucket `b` exactly when the evaluation moved in direction `d` and the
   swing falls in bucket `b`.
   */
  function Comment(evalBefore: real, evalAfter: real, delta: real): (c: string)
    ensures forall d, b :: c == CommentText(d, b) <==>
              d == DirectionOf(evalBefore, evalAfter) && b == BucketOf(delta)
  {
    var d, b := DirectionOf(evalBefore, evalAfter), BucketOf(delta);
    CommentTextIdentifies(d, b);
    CommentText(d, b)
  }

  /**
   What the scanner guarantees of every record it emits for game `id` under
   threshold `threshold`.
   */
  ghost predicate Sound(m: CriticalMove, id: string, threshold: real) {
    && m.gameId == id
    && m.moveNumber >= 1
    && m.delta == Abs(m.evalAfter - m.evalBefore)
    && m.delta >= threshold
    && m.comment == Comment(m.evalBefore, m.evalAfter, m.delta)
    && (m.side == "Brancas" || m.side == "Pretas")
  }

  /**
   Worked examples: 3.0 then 0.5 is a regression of 2.5, which falls in
   the lowest bucket; 1.0 then 4.5 is an improvement of 3.5, the middle one.
   */
  lemma CommentExamples()
    ensures Comment(3.0, 0.5, Abs(0.5 - 3.0)) == "Imprecisão que piora a posição"
    ensures Comment(1.0, 4.5, Abs(4.5 - 1.0)) == "Bom lance tático que aumenta a vantagem"
  {
  }
}
