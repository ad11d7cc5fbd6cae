/**
 Score mapping of `ChessAnalyzer.evaluate_position`.

 The engine is an oracle: what it answered for a position is an input,
 `EngineReply`. The mapping turns that answer into the evaluation (in
 pawns) used by the move scanner. Mate distances and centipawns are plain
 integers here; which side's point of view the engine library reports them
 from is the library's business and is not modelled.
 */
module Evaluation {

  /** What one engine analysis call produced. */
  datatype EngineReply =
    | Centipawns(cp: int)    // an ordinary score, in centipawns
    | MateIn(n: int)         // a forced mate, as the library's signed distance
    | EngineFailure          // the call raised (engine died, protocol error, ...)

  /** Bound of ordinary evaluations, in pawns: mate scores start here. */
  const MateBase: real := 1000.0

  /**
   The evaluation of a position, in pawns.
   A mate in `n > 0` becomes `1000 + n`; any other mate distance becomes
   `-1000 - n`; a centipawn score is divided by 100; a failed call is `0.0`.
   */
  function Evaluate(reply: EngineReply): (r: real)
    ensures reply.Centipawns? ==> r * 100.0 == reply.cp as real
    ensures reply.MateIn? && reply.n > 0 ==> r > MateBase
    ensures reply.MateIn? && -1000 < reply.n <= 0 ==> -MateBase <= r < 0.0
    ensures reply.EngineFailure? ==> r == 0.0
  {
    match reply
    case MateIn(n) => if n > 0 then 1000.0 + n as real else -1000.0 - n as real
    case Centipawns(cp) => cp as real / 100.0
    case EngineFailure => 0.0
  }

  /** The mate distance that an evaluation of at least 1000 in size encodes, if any. */
  function MateDistance(r: real): (n: int)
  {
    if r > MateBase then (r - MateBase).Floor else (-MateBase - r).Floor
  }

  /**
   Mate distances above -1000 survive the mapping: the distance can be read
   back from the evaluation, so two such mates never share a score.
   */
  lemma MateDistanceRecovered(n: int)
    requires n > -1000
    ensures MateDistance(Evaluate(MateIn(n))) == n
  {
    if n > 0 {
      assert Evaluate(MateIn(n)) - MateBase == n as real;
    } else {
      assert -MateBase - Evaluate(MateIn(n)) == n as real;
    }
  }

  /**
   A mate in favour of the reported side outranks every centipawn score
   smaller than 1000 pawns in size.
   */
  lemma MateOutranksCentipawns(n: int, cp: int)
    requires n > 0
    requires -100000 < cp < 100000
    ensures Evaluate(MateIn(n)) > Evaluate(Centipawns(cp))
  {
    assert Evaluate(Centipawns(cp)) * 100.0 < 100000.0;
  }

  /**
   The mapping is not a mirror image: a mate in -3 scores -997, not the
   negation of the score of a mate in 3 (1003), and a mate distance of 0
   scores -1000.
   */
  lemma MateMappingIsNotSymmetric()
    ensures Evaluate(MateIn(-3)) == -997.0
    ensures Evaluate(MateIn(3)) == 1003.0
    ensures Evaluate(MateIn(-3)) != -Evaluate(MateIn(3))
    ensures Evaluate(MateIn(0)) == -1000.0
  {
  }
}
