/**
 The critical-move scan of `ChessAnalyzer.analyze_game`.

 The board and the engine are replaced by what they report: a game is its
 starting position and, for each mainline move, the move's SAN, the
 position the move leads to and the engine's best move for the position
 before it. A position is either terminal (the game is over there, so the
 engine is never asked about it) or live, with the engine's reply, the side
 to move and the FEN string.

 The scan is one forward pass carrying the previous evaluation. It is
 given three times: as the recursive function `ScanFrom`, as the
 per-index reference `Expected`, and as the loop `AnalyzeGameLoop`; lemmas
 prove the three agree.
 */
module Scanner {
  import opened Wrappers
  import opened Evaluation
  import opened Records

  datatype Position =
    | Terminal
    | Live(reply: EngineReply, turn: Color, fen: string)

  /**
   One mainline move. `Faulted` stands for a move on which the chess
   library raised (naming or pushing it): the exception leaves
   `analyze_game` and the records gathered so far are lost.
   */
  datatype Step =
    | Played(san: string, after: Position, bestBefore: Option<string>)
    | Faulted

  datatype Game = Game(start: Position, moves: seq<Step>)

  /** No move from index `k` on makes the library raise. */
  ghost predicate CompletesFrom(moves: seq<Step>, k: nat) {
    forall i :: k <= i < |moves| ==> moves[i].Played?
  }

  /** No move of `steps` makes the library raise. */
  ghost predicate Completes(steps: seq<Step>) {
    CompletesFrom(steps, 0)
  }

  /** Record numbers strictly increase along the list. */
  ghost predicate StrictlyIncreasing(ms: seq<CriticalMove>) {
    forall i, j :: 0 <= i < j < |ms| ==> ms[i].moveNumber < ms[j].moveNumber
  }

  /** The evaluation taken before the first move: 0.0 when the game starts over. */
  function InitialEval(start: Position): real {
    match start
    case Terminal => 0.0
    case Live(reply, _, _) => Evaluate(reply)
  }

  /** The carried evaluation after reaching `after`: terminal positions keep it. */
  function NextEval(after: Position, previous: real): real {
    match after
    case Terminal => previous
    case Live(reply, _, _) => Evaluate(reply)
  }

  /** The record the scanner builds for a move that reaches a live position. */
  function MakeRecord(id: string, number: nat, san: string, after: Position,
                      bestBefore: Option<string>, previous: real): CriticalMove
    requires after.Live?
  {
    var current := Evaluate(after.reply);
    var delta := Abs(current - previous);
    CriticalMove(id, number, san, SideLabel(after.turn), previous, current,
                 delta, after.fen, bestBefore, Comment(previous, current, delta))
  }

  /** What one played move adds to the list: its record if critical, else nothing. */
  function Emitted(id: string, threshold: real, number: nat, step: Step, previous: real)
    : seq<CriticalMove>
    requires step.Played?
  {
    if step.after.Live? && Abs(Evaluate(step.after.reply) - previous) >= threshold then
      [MakeRecord(id, number, step.san, step.after, step.bestBefore, previous)]
    else
      []
  }

  /**
   The scan of the moves from index `k` on, the first `k` having been
   scanned already, with `previous` the evaluation carried into move `k`.
   `None` when one of these moves makes the library raise.
   */
  function ScanFrom(id: string, threshold: real, moves: seq<Step>, k: nat, previous: real)
    : (r: Option<seq<CriticalMove>>)
    requires k <= |moves|
    ensures r.Some? <==> CompletesFrom(moves, k)
    ensures r.Some? ==> StrictlyIncreasing(r.value)
    ensures r.Some? ==> forall j :: 0 <= j < |r.value| ==>
              k < r.value[j].moveNumber <= |moves| && Sound(r.value[j], id, threshold)
    decreases |moves| - k
  {
    if k == |moves| then Some([])
    else
      match moves[k]
      case Faulted => None
      case Played(_, after, _) =>
        var rest := ScanFrom(id, threshold, moves, k + 1, NextEval(after, previous));
        if rest.None? then None
        else Some(Emitted(id, threshold, k + 1, moves[k], previous) + rest.value)
  }

  /**
   `analyze_game`: `None` when the analysis raises, else the critical moves,
   in strictly increasing move number, each between 1 and the number of
   moves and sound for the game and the threshold.
   */
  function AnalyzeGame(g: Game, id: string, threshold: real): (r: Option<seq<CriticalMove>>)
    ensures r.Some? <==> Completes(g.moves)
    ensures r.Some? ==> StrictlyIncreasing(r.value)
    ensures r.Some? ==> forall m :: m in r.value ==>
              1 <= m.moveNumber <= |g.moves| && Sound(m, id, threshold)
  {
    ScanFrom(id, threshold, g.moves, 0, InitialEval(g.start))
  }

  // ---------------------------------------------------------------------
  // Per-index reference

  /** `previous_eval` as it stands before move `i` (0-based) is played. */
  function PrevEval(g: Game, i: nat): real
    requires i <= |g.moves|
  {
    if i == 0 then InitialEval(g.start)
    else
      match g.moves[i - 1]
      case Played(_, after, _) => NextEval(after, PrevEval(g, i - 1))
      case Faulted => PrevEval(g, i - 1)
  }

  /** Move `i` reaches a live position whose evaluation moved by at least `threshold`. */
  predicate IsCritical(g: Game, threshold: real, i: nat)
    requires i < |g.moves|
  {
    && g.moves[i].Played?
    && g.moves[i].after.Live?
    && Abs(Evaluate(g.moves[i].after.reply) - PrevEval(g, i)) >= threshold
  }

  /** The record move `i` gets when it is critical. */
  function RecordAt(g: Game, id: string, i: nat): CriticalMove
    requires i < |g.moves|
    requires g.moves[i].Played? && g.moves[i].after.Live?
  {
    var s := g.moves[i];
    MakeRecord(id, i + 1, s.san, s.after, s.bestBefore, PrevEval(g, i))
  }

  /** The records of the critical moves among the first `k`, in move order. */
  function Expected(g: Game, id: string, threshold: real, k: nat): seq<CriticalMove>
    requires k <= |g.moves|
  {
    if k == 0 then []
    else
      Expected(g, id, threshold, k - 1)
      + (if IsCritical(g, threshold, k - 1) then [RecordAt(g, id, k - 1)] else [])
  }

  lemma AppendAssociative<T>(a: seq<T>, b: seq<T>, c: seq<T>)
    ensures a + (b + c) == (a + b) + c
  {
  }

  /** One step of the scan over a played move. */
  lemma ScanFromStep(id: string, threshold: real, moves: seq<Step>, k: nat, previous: real)
    requires k < |moves| && CompletesFrom(moves, k)
    ensures CompletesFrom(moves, k + 1)
    ensures ScanFrom(id, threshold, moves, k, previous)
            == Some(Emitted(id, threshold, k + 1, moves[k], previous)
                    + ScanFrom(id, threshold, moves, k + 1, NextEval(moves[k].after, previous)).value)
  {
  }

  /** One step of the reference: the carried value and the list grow by move `k`. */
  lemma ReferenceStep(g: Game, id: string, threshold: real, k: nat)
    requires k < |g.moves| && g.moves[k].Played?
    ensures NextEval(g.moves[k].after, PrevEval(g, k)) == PrevEval(g, k + 1)
    ensures Expected(g, id, threshold, k + 1)
            == Expected(g, id, threshold, k) + Emitted(id, threshold, k + 1, g.moves[k], PrevEval(g, k))
  {
  }

  /**
   The scan of the moves from `k` on, started with the carried evaluation
   at `k`, finishes the reference list of the moves before `k`.
   */
  lemma {:induction false} ScanFromSuffix(g: Game, id: string, threshold: real, k: nat)
    requires k <= |g.moves|
    requires CompletesFrom(g.moves, k)
    ensures ScanFrom(id, threshold, g.moves, k, PrevEval(g, k)).Some?
    ensures Expected(g, id, threshold, k)
            + ScanFrom(id, threshold, g.moves, k, PrevEval(g, k)).value
            == Expected(g, id, threshold, |g.moves|)
    decreases |g.moves| - k
  {
    if k < |g.moves| {
      var previous := PrevEval(g, k);
      ScanFromStep(id, threshold, g.moves, k, previous);
      ScanFromSuffix(g, id, threshold, k + 1);
      ReferenceStep(g, id, threshold, k);
      var emitted := Emitted(id, threshold, k + 1, g.moves[k], previous);
      var rest := ScanFrom(id, threshold, g.moves, k + 1, PrevEval(g, k + 1)).value;
      AppendAssociative(Expected(g, id, threshold, k), emitted, rest);
    }
  }

  /**
   The recursive scan and the per-index reference agree: a game that
   completes yields exactly the reference list; a game with a faulting move
   yields nothing.
   */
  lemma ScanMatchesReference(g: Game, id: string, threshold: real)
    ensures AnalyzeGame(g, id, threshold)
            == if Completes(g.moves) then Some(Expected(g, id, threshold, |g.moves|)) else None
  {
    if Completes(g.moves) {
      ScanFromSuffix(g, id, threshold, 0);
      var r := ScanFrom(id, threshold, g.moves, 0, PrevEval(g, 0));
      assert r == AnalyzeGame(g, id, threshold);
      assert Expected(g, id, threshold, 0) == [];
      assert [] + r.value == r.value;
    }
  }

  /**
   Membership in the reference list: a record is there exactly when it is
   the record of a critical move among the first `k`.
   */
  lemma {:induction false} ExpectedMembers(g: Game, id: string, threshold: real, k: nat)
    requires k <= |g.moves|
    ensures forall m :: m in Expected(g, id, threshold, k) ==>
              && 1 <= m.moveNumber <= k
              && IsCritical(g, threshold, m.moveNumber - 1)
              && m == RecordAt(g, id, m.moveNumber - 1)
    ensures forall i :: 0 <= i < k && IsCritical(g, threshold, i) ==>
              RecordAt(g, id, i) in Expected(g, id, threshold, k)
  {
    if k > 0 {
      ExpectedMembers(g, id, threshold, k - 1);
    }
  }

  /**
   For a completed game, the record numbered `i + 1` is there exactly when
   move `i` is critical, and it is then the reference record of move `i`.
   */
  lemma RecordOfMove(g: Game, id: string, threshold: real, i: nat)
    requires i < |g.moves|
    requires Completes(g.moves)
    ensures AnalyzeGame(g, id, threshold).Some?
    ensures IsCritical(g, threshold, i) ==> RecordAt(g, id, i) in AnalyzeGame(g, id, threshold).value
    ensures forall m :: m in AnalyzeGame(g, id, threshold).value && m.moveNumber == i + 1 ==>
              IsCritical(g, threshold, i) && m == RecordAt(g, id, i)
  {
    ScanMatchesReference(g, id, threshold);
    ExpectedMembers(g, id, threshold, |g.moves|);
  }

  /**
   The threshold rule. For a game whose analysis completes, move `i`
   (numbered `i + 1`) has a record exactly when it reaches a live position
   whose evaluation differs from the carried one by at least the threshold
   (equality counts), and that record holds the move's SAN, both
   evaluations, their absolute difference, the mover, the post-move FEN,
   the engine's best move and the comment.
   */
  lemma EmittedExactlyWhenCritical(g: Game, id: string, threshold: real, i: nat)
    requires i < |g.moves|
    requires Completes(g.moves)
    ensures AnalyzeGame(g, id, threshold).Some?
    ensures (exists m :: m in AnalyzeGame(g, id, threshold).value && m.moveNumber == i + 1)
            <==> (g.moves[i].after.Live?
                  && Abs(Evaluate(g.moves[i].after.reply) - PrevEval(g, i)) >= threshold)
    ensures forall m :: m in AnalyzeGame(g, id, threshold).value && m.moveNumber == i + 1 ==>
              var s := g.moves[i];
              && s.after.Live?
              && m.move == s.san
              && m.evalBefore == PrevEval(g, i)
              && m.evalAfter == Evaluate(s.after.reply)
              && m.delta == Abs(m.evalAfter - m.evalBefore)
              && m.side == SideLabel(s.after.turn)
              && m.positionFen == s.after.fen
              && m.bestMove == s.bestBefore
              && m.comment == Comment(m.evalBefore, m.evalAfter, m.delta)
  {
    RecordOfMove(g, id, threshold, i);
    if IsCritical(g, threshold, i) {
      var m := RecordAt(g, id, i);
      assert m.moveNumber == i + 1;
    }
  }

  /**
   A move that ends the game is never evaluated: it gets no record and the
   carried evaluation passes over it unchanged, while the move counter
   still advances past it.
   */
  lemma TerminalMoveIsSkipped(g: Game, id: string, threshold: real, i: nat)
    requires i < |g.moves|
    requires Completes(g.moves)
    requires g.moves[i].after.Terminal?
    ensures PrevEval(g, i + 1) == PrevEval(g, i)
    ensures forall m :: m in AnalyzeGame(g, id, threshold).value ==> m.moveNumber != i + 1
  {
    EmittedExactlyWhenCritical(g, id, threshold, i);
  }

  /**
   The carried evaluation before move `i` is the evaluation of the most
   recent live position reached by an earlier move `j`, whether or not
   move `j` was critical, when every move in between ends the game.
   */
  lemma {:induction false} PrevEvalIsLatestLive(g: Game, j: nat, i: nat)
    requires j < i <= |g.moves|
    requires g.moves[j].Played? && g.moves[j].after.Live?
    requires forall k :: j < k < i ==> g.moves[k].Played? && g.moves[k].after.Terminal?
    ensures PrevEval(g, i) == Evaluate(g.moves[j].after.reply)
    decreases i - j
  {
    if i - 1 > j {
      PrevEvalIsLatestLive(g, j, i - 1);
    }
  }

  /**
   When no earlier move reaches a live position, the carried evaluation is
   still the one of the starting position (0.0 if the game starts over).
   */
  lemma {:induction false} PrevEvalBeforeAnyLive(g: Game, i: nat)
    requires i <= |g.moves|
    requires forall k :: 0 <= k < i ==> g.moves[k].Played? && g.moves[k].after.Terminal?
    ensures PrevEval(g, i) == InitialEval(g.start)
    ensures g.start.Terminal? ==> PrevEval(g, i) == 0.0
  {
    if i > 0 {
      PrevEvalBeforeAnyLive(g, i - 1);
    }
  }

  // ---------------------------------------------------------------------
  // The loop

  /**
   `analyze_game` as a loop: a loop over the mainline that
   carries `previous` and appends each critical record; a faulting move
   abandons the game.
   */
  method AnalyzeGameLoop(g: Game, id: string, threshold: real)
    returns (r: Option<seq<CriticalMove>>)
    ensures r == AnalyzeGame(g, id, threshold)
    ensures r == if Completes(g.moves) then Some(Expected(g, id, threshold, |g.moves|)) else None
  {
    ScanMatchesReference(g, id, threshold);
    var records: seq<CriticalMove> := [];
    var previous := 0.0;
    if !g.start.Terminal? {
      previous := Evaluate(g.start.reply);
    }
    var moveNumber := 0;
    while moveNumber < |g.moves|
      invariant moveNumber <= |g.moves|
      invariant forall k :: 0 <= k < moveNumber ==> g.moves[k].Played?
      invariant previous == PrevEval(g, moveNumber)
      invariant records == Expected(g, id, threshold, moveNumber)
    {
      var step := g.moves[moveNumber];
      if step.Faulted? {
        assert !Completes(g.moves);
        return None;
      }
      ghost var emitted := Emitted(id, threshold, moveNumber + 1, step, previous);
      ReferenceStep(g, id, threshold, moveNumber);
      moveNumber := moveNumber + 1;
      if step.after.Live? {
        var current := Evaluate(step.after.reply);
        var delta := Abs(current - previous);
        if delta >= threshold {
          var record := CriticalMove(id, moveNumber, step.san, SideLabel(step.after.turn),
                                     previous, current, delta, step.after.fen,
                                     step.bestBefore, Comment(previous, current, delta));
          assert emitted == [record];
          records := records + [record];
        } else {
          assert emitted == [];
        }
        previous := current;
      } else {
        assert emitted == [];
      }
    }
    assert Completes(g.moves);
    return Some(records);
  }

  /**
   The worked example: evaluations 0.0, 1.0, 4.5, 4.6 under threshold 2.0
   give one record, for the second move, with delta 3.5 and the middle
   improvement comment.
   */
  lemma WorkedExample()
    ensures var g := Game(Live(Centipawns(0), White, "p0"),
                          [Played("a", Live(Centipawns(100), Black, "p1"), None),
                           Played("b", Live(Centipawns(450), White, "p2"), None),
                           Played("c", Live(Centipawns(460), Black, "p3"), None)]);
            var r := AnalyzeGame(g, "g_1", 2.0);
            && r.Some? && |r.value| == 1
            && r.value[0].moveNumber == 2
            && r.value[0].delta == 3.5
            && r.value[0].side == "Pretas"
            && r.value[0].comment == CommentText(Improvement, Medium)
  {
  }
}
