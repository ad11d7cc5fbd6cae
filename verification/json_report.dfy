/**
 The JSON file of `ChessAnalyzer.save_json_report`: a metadata object and
 the critical moves, in list order, each as an object of ten fields.

 The document is modelled as a JSON value rather than as text; writing it
 out (`json.dump`, indentation, number formatting) is left to the library.
 The generation time is a parameter, not a clock reading. A decoder reads
 the document back, and the round trip is proved.
 */
module JsonReport {
  import opened Wrappers
  import opened Records

  datatype Json =
    | JString(s: string)
    | JNumber(x: real)
    | JNull
    | JArray(items: seq<Json>)
    | JObject(fields: seq<(string, Json)>)

  /** The field names of one move, in the order the file writes them. */
  const MoveKeys: seq<string> := ["game_id", "move_number", "move", "side", "eval_before",
                                  "eval_after", "delta", "position_fen", "best_move", "comment"]

  /** The field names of the metadata object, in order. */
  const MetadataKeys: seq<string> := ["timestamp", "threshold", "depth", "total_moves"]

  function Keys(fields: seq<(string, Json)>): (ks: seq<string>)
    ensures |ks| == |fields|
    ensures forall i :: 0 <= i < |fields| ==> ks[i] == fields[i].0
  {
    seq(|fields|, i requires 0 <= i < |fields| => fields[i].0)
  }

  /** The value of the first field named `key`. */
  function Lookup(fields: seq<(string, Json)>, key: string): Option<Json> {
    if |fields| == 0 then None
    else if fields[0].0 == key then Some(fields[0].1)
    else Lookup(fields[1..], key)
  }

  /** No two fields share a name. */
  ghost predicate DistinctNames(fields: seq<(string, Json)>) {
    forall i, j :: 0 <= i < j < |fields| ==> fields[i].0 != fields[j].0
  }

  /** A name that no earlier field uses finds its own field. */
  lemma {:induction false} LookupFindsField(fields: seq<(string, Json)>, i: nat)
    requires i < |fields|
    requires forall j :: 0 <= j < i ==> fields[j].0 != fields[i].0
    ensures Lookup(fields, fields[i].0) == Some(fields[i].1)
  {
    if i > 0 {
      LookupFindsField(fields[1..], i - 1);
    }
  }

  /** In an object with distinct names every field is found by its name. */
  lemma LookupAll(fields: seq<(string, Json)>)
    requires DistinctNames(fields)
    ensures forall i :: 0 <= i < |fields| ==> Lookup(fields, fields[i].0) == Some(fields[i].1)
  {
    forall i | 0 <= i < |fields| ensures Lookup(fields, fields[i].0) == Some(fields[i].1) {
      LookupFindsField(fields, i);
    }
  }

  /** One move as the file writes it: ten fields, `best_move` null when absent. */
  function EncodeMove(m: CriticalMove): (j: Json)
    ensures j.JObject? && Keys(j.fields) == MoveKeys
  {
    JObject([("game_id", JString(m.gameId)),
             ("move_number", JNumber(m.moveNumber as real)),
             ("move", JString(m.move)),
             ("side", JString(m.side)),
             ("eval_before", JNumber(m.evalBefore)),
             ("eval_after", JNumber(m.evalAfter)),
             ("delta", JNumber(m.delta)),
             ("position_fen", JString(m.positionFen)),
             ("best_move", match m.bestMove case Some(b) => JString(b) case None => JNull),
             ("comment", JString(m.comment))])
  }

  function AsString(j: Option<Json>): Option<string> {
    if j.Some? && j.value.JString? then Some(j.value.s) else None
  }

  function AsNumber(j: Option<Json>): Option<real> {
    if j.Some? && j.value.JNumber? then Some(j.value.x) else None
  }

  /** A number with no fractional part, as an integer. */
  function AsInt(j: Option<Json>): (r: Option<int>)
    ensures r.Some? ==> j == Some(JNumber(r.value as real))
  {
    if j.Some? && j.value.JNumber? && j.value.x.Floor as real == j.value.x
    then Some(j.value.x.Floor) else None
  }

  function AsNat(j: Option<Json>): (r: Option<nat>)
    ensures r.Some? ==> j == Some(JNumber(r.value as real))
  {
    var i :- AsInt(j);
    if i >= 0 then Some(i) else None
  }

  /** A string or null, as an optional string. */
  function AsOptionalString(j: Option<Json>): Option<Option<string>> {
    if j == Some(JNull) then Some(None)
    else if j.Some? && j.value.JString? then Some(Some(j.value.s))
    else None
  }

  /** Reads one move back from its object; `None` on a missing or mistyped field. */
  function DecodeMove(j: Json): Option<CriticalMove> {
    if !j.JObject? then None
    else
      var f := j.fields;
      var gameId :- AsString(Lookup(f, "game_id"));
      var moveNumber :- AsNat(Lookup(f, "move_number"));
      var move :- AsString(Lookup(f, "move"));
      var side :- AsString(Lookup(f, "side"));
      var evalBefore :- AsNumber(Lookup(f, "eval_before"));
      var evalAfter :- AsNumber(Lookup(f, "eval_after"));
      var delta :- AsNumber(Lookup(f, "delta"));
      var fen :- AsString(Lookup(f, "position_fen"));
      var bestMove :- AsOptionalString(Lookup(f, "best_move"));
      var comment :- AsString(Lookup(f, "comment"));
      Some(CriticalMove(gameId, moveNumber, move, side, evalBefore, evalAfter,
                        delta, fen, bestMove, comment))
  }

  /** Every field of a move survives writing and reading back. */
  lemma MoveRoundTrip(m: CriticalMove)
    ensures DecodeMove(EncodeMove(m)) == Some(m)
  {
    var f := EncodeMove(m).fields;
    assert DistinctNames(f);
    LookupAll(f);
    assert f[0].0 == "game_id" && f[1].0 == "move_number" && f[2].0 == "move";
    assert f[3].0 == "side" && f[4].0 == "eval_before" && f[5].0 == "eval_after";
    assert f[6].0 == "delta" && f[7].0 == "position_fen" && f[8].0 == "best_move";
    assert f[9].0 == "comment";
    assert (m.moveNumber as real).Floor == m.moveNumber;
  }

  /** What the file holds: the metadata and the moves. */
  datatype Report = Report(timestamp: string, threshold: real, depth: int,
                           moves: seq<CriticalMove>)

  function EncodeMoves(ms: seq<CriticalMove>): (items: seq<Json>)
    ensures |items| == |ms|
    ensures forall i :: 0 <= i < |ms| ==> items[i] == EncodeMove(ms[i])
  {
    seq(|ms|, i requires 0 <= i < |ms| => EncodeMove(ms[i]))
  }

  /**
   The document `save_json_report` writes: the moves in the order given
   (no sorting), and `total_moves` their count.
   */
  function EncodeReport(r: Report): (j: Json)
    ensures j.JObject? && Keys(j.fields) == ["metadata", "critical_moves"]
    ensures j.fields[0].1.JObject? && Keys(j.fields[0].1.fields) == MetadataKeys
    ensures j.fields[0].1.fields[3].1 == JNumber(|r.moves| as real)
    ensures j.fields[1].1 == JArray(EncodeMoves(r.moves))
  {
    JObject([("metadata", JObject([("timestamp", JString(r.timestamp)),
                                   ("threshold", JNumber(r.threshold)),
                                   ("depth", JNumber(r.depth as real)),
                                   ("total_moves", JNumber(|r.moves| as real))])),
             ("critical_moves", JArray(EncodeMoves(r.moves)))])
  }

  function DecodeMoves(items: seq<Json>): (r: Option<seq<CriticalMove>>)
    ensures r.Some? ==> |r.value| == |items|
  {
    if |items| == 0 then Some([])
    else
      var m :- DecodeMove(items[0]);
      var rest :- DecodeMoves(items[1..]);
      Some([m] + rest)
  }

  /** The moves survive writing and reading back, in their order. */
  lemma {:induction false} MovesRoundTrip(ms: seq<CriticalMove>)
    ensures DecodeMoves(EncodeMoves(ms)) == Some(ms)
  {
    if |ms| > 0 {
      var items := EncodeMoves(ms);
      assert items[1..] == EncodeMoves(ms[1..]);
      MoveRoundTrip(ms[0]);
      assert DecodeMove(items[0]) == Some(ms[0]);
      MovesRoundTrip(ms[1..]);
      assert DecodeMoves(items[1..]) == Some(ms[1..]);
      assert ms == [ms[0]] + ms[1..];
    }
  }

  /**
   Reads a report back; `None` on a missing or mistyped field and on a
   document whose `total_moves` disagrees with the number of moves listed.
   */
  function DecodeReport(j: Json): (r: Option<Report>)
    ensures r.Some? ==> j.JObject? && Lookup(j.fields, "metadata").Some?
    ensures r.Some? ==> var meta := Lookup(j.fields, "metadata").value;
                        meta.JObject? && AsNat(Lookup(meta.fields, "total_moves")) == Some(|r.value.moves|)
  {
    if !j.JObject? then None
    else
      var meta :- Lookup(j.fields, "metadata");
      if !meta.JObject? then None
      else
        var timestamp :- AsString(Lookup(meta.fields, "timestamp"));
        var threshold :- AsNumber(Lookup(meta.fields, "threshold"));
        var depth :- AsInt(Lookup(meta.fields, "depth"));
        var total :- AsNat(Lookup(meta.fields, "total_moves"));
        var list :- Lookup(j.fields, "critical_moves");
        if !list.JArray? then None
        else
          var moves :- DecodeMoves(list.items);
          if total != |moves| then None
          else Some(Report(timestamp, threshold, depth, moves))
  }

  /**
   Reading the file back gives the same timestamp, threshold, depth and
   moves, in the same order, with the count matching.
   */
  lemma ReportRoundTrip(r: Report)
    ensures DecodeReport(EncodeReport(r)) == Some(r)
  {
    var j := EncodeReport(r);
    var meta := j.fields[0].1;
    assert DistinctNames(j.fields);
    assert DistinctNames(meta.fields);
    LookupAll(j.fields);
    LookupAll(meta.fields);
    assert Lookup(j.fields, "metadata") == Some(meta);
    assert Lookup(j.fields, "critical_moves") == Some(JArray(EncodeMoves(r.moves)));
    assert meta.fields[0].0 == "timestamp" && meta.fields[1].0 == "threshold";
    assert meta.fields[2].0 == "depth" && meta.fields[3].0 == "total_moves";
    MovesRoundTrip(r.moves);
    assert (|r.moves| as real).Floor == |r.moves|;
    assert (r.depth as real).Floor == r.depth;
  }
}
