/**
 The batch of `ChessAnalyzer.analyze_multiple_games`: every loaded game is
 scanned in order and its critical moves are appended to one list; a game
 whose analysis raises is logged and contributes nothing.
 */
module Batch {
  import opened Wrappers
  import opened Records
  import opened Scanner
  import opened Loader

  /** The records a game contributes: its critical moves, or none when it raised. */
  function Contribution(e: LoadedGame, threshold: real): seq<CriticalMove> {
    AnalyzeGame(e.game, e.id, threshold).GetOr([])
  }

  /** Joins lists end to end, in order. */
  function Flatten<T>(xss: seq<seq<T>>): seq<T> {
    if |xss| == 0 then [] else Flatten(xss[..|xss| - 1]) + xss[|xss| - 1]
  }

  /** Flattening distributes over concatenation. */
  lemma {:induction false} FlattenAppend<T>(a: seq<seq<T>>, b: seq<seq<T>>)
    ensures Flatten(a + b) == Flatten(a) + Flatten(b)
    decreases |b|
  {
    if |b| == 0 {
      assert a + b == a;
    } else {
      var ab := a + b;
      var b' := b[..|b| - 1];
      assert ab[..|ab| - 1] == a + b';
      assert ab[|ab| - 1] == b[|b| - 1];
      FlattenAppend(a, b');
    }
  }

  /** An element of a flattened list sits in one of the lists. */
  lemma {:induction false} InFlatten<T>(xss: seq<seq<T>>, x: T)
    requires x in Flatten(xss)
    ensures exists j :: 0 <= j < |xss| && x in xss[j]
  {
    var init := xss[..|xss| - 1];
    if x in Flatten(init) {
      InFlatten(init, x);
      var j :| 0 <= j < |init| && x in init[j];
      assert xss[j] == init[j];
    }
  }

  /** The per-game contributions, in game order. */
  function Contributions(entries: seq<LoadedGame>, threshold: real): (cs: seq<seq<CriticalMove>>)
    ensures |cs| == |entries|
    ensures forall j :: 0 <= j < |entries| ==> cs[j] == Contribution(entries[j], threshold)
  {
    seq(|entries|, j requires 0 <= j < |entries| => Contribution(entries[j], threshold))
  }

  /** Every element of a flattened list comes from one of the lists. */
  lemma FlattenMembers<T>(xss: seq<seq<T>>)
    ensures forall x :: x in Flatten(xss) ==> exists j :: 0 <= j < |xss| && x in xss[j]
  {
    forall x | x in Flatten(xss) ensures exists j :: 0 <= j < |xss| && x in xss[j] {
      InFlatten(xss, x);
    }
  }

  /**
   The batch result: the contributions of the games, in game order; every
   record comes from the analysis of one of the games.
   */
  function BatchResult(entries: seq<LoadedGame>, threshold: real): (all: seq<CriticalMove>)
    ensures forall m :: m in all ==>
              exists j :: 0 <= j < |entries| && m in Contribution(entries[j], threshold)
  {
    var cs := Contributions(entries, threshold);
    FlattenMembers(cs);
    Flatten(cs)
  }

  /** Concatenating batches is the batch of the concatenation. */
  lemma BatchAppend(a: seq<LoadedGame>, b: seq<LoadedGame>, threshold: real)
    ensures BatchResult(a + b, threshold) == BatchResult(a, threshold) + BatchResult(b, threshold)
  {
    assert Contributions(a + b, threshold) == Contributions(a, threshold) + Contributions(b, threshold);
    FlattenAppend(Contributions(a, threshold), Contributions(b, threshold));
  }

  /** The batch of one more game ends with that game's contribution. */
  lemma BatchSnoc(entries: seq<LoadedGame>, e: LoadedGame, threshold: real)
    ensures BatchResult(entries + [e], threshold) == BatchResult(entries, threshold) + Contribution(e, threshold)
  {
    var cs := Contributions(entries + [e], threshold);
    assert cs[..|cs| - 1] == Contributions(entries, threshold);
  }

  /** The records of `ms` that belong to game `id`, in order. */
  function RecordsOf(ms: seq<CriticalMove>, id: string): (r: seq<CriticalMove>)
    ensures forall m :: m in r <==> m in ms && m.gameId == id
  {
    if |ms| == 0 then []
    else (if ms[0].gameId == id then [ms[0]] else []) + RecordsOf(ms[1..], id)
  }

  lemma {:induction false} RecordsOfAppend(a: seq<CriticalMove>, b: seq<CriticalMove>, id: string)
    ensures RecordsOf(a + b, id) == RecordsOf(a, id) + RecordsOf(b, id)
  {
    if |a| > 0 {
      assert (a + b)[1..] == a[1..] + b;
      RecordsOfAppend(a[1..], b, id);
    } else {
      assert a + b == b;
    }
  }

  /** Filtering a list by an id none of its records carries leaves nothing. */
  lemma {:induction false} RecordsOfNone(ms: seq<CriticalMove>, id: string)
    requires forall m :: m in ms ==> m.gameId != id
    ensures RecordsOf(ms, id) == []
  {
    if |ms| > 0 {
      assert ms[0] in ms;
      RecordsOfNone(ms[1..], id);
    }
  }

  /** Filtering a list by an id all of its records carry keeps it whole. */
  lemma {:induction false} RecordsOfAllSame(ms: seq<CriticalMove>, id: string)
    requires forall m :: m in ms ==> m.gameId == id
    ensures RecordsOf(ms, id) == ms
  {
    if |ms| > 0 {
      assert ms[0] in ms;
      RecordsOfAllSame(ms[1..], id);
    }
  }

  /** A game whose analysis raises leaves the rest of the batch as it would be without it. */
  lemma FailedGameContributesNothing(before: seq<LoadedGame>, e: LoadedGame,
                                     after: seq<LoadedGame>, threshold: real)
    requires AnalyzeGame(e.game, e.id, threshold).None?
    ensures BatchResult(before + [e] + after, threshold)
            == BatchResult(before, threshold) + BatchResult(after, threshold)
  {
    var pre := before + [e];
    assert before + [e] + after == pre + after;
    BatchAppend(pre, after, threshold);
    BatchSnoc(before, e, threshold);
    assert Contribution(e, threshold) == [];
    assert BatchResult(pre, threshold) == BatchResult(before, threshold) + [];
  }

  /**
   Every batch record was emitted by one of the batch's games under its
   own identifier, and is sound for the threshold.
   */
  lemma BatchRecordsAreSound(entries: seq<LoadedGame>, threshold: real)
    ensures forall m :: m in BatchResult(entries, threshold) ==>
              Sound(m, m.gameId, threshold)
              && exists j :: 0 <= j < |entries| && entries[j].id == m.gameId
  {
    forall m | m in BatchResult(entries, threshold)
      ensures Sound(m, m.gameId, threshold)
      ensures exists j :: 0 <= j < |entries| && entries[j].id == m.gameId
    {
      var cs := Contributions(entries, threshold);
      InFlatten(cs, m);
      var j :| 0 <= j < |cs| && m in cs[j];
      OwnRecordsAreSound(entries[j], threshold);
    }
  }

  /**
   With distinct identifiers, the records of game `j` in the batch are
   exactly the records its own analysis produced, in the same order (none
   when it raised).
   */
  lemma {:induction false} BatchGroupsByGame(entries: seq<LoadedGame>, threshold: real, j: nat)
    requires IdsDistinct(entries)
    requires j < |entries|
    ensures RecordsOf(BatchResult(entries, threshold), entries[j].id) == Contribution(entries[j], threshold)
  {
    var init := entries[..|entries| - 1];
    var last := entries[|entries| - 1];
    var id := entries[j].id;
    assert entries == init + [last];
    BatchSnoc(init, last, threshold);
    RecordsOfAppend(BatchResult(init, threshold), Contribution(last, threshold), id);
    OwnRecordsAreSound(last, threshold);
    if j == |entries| - 1 {
      RecordsOfAllSame(Contribution(last, threshold), id);
      NoRecordsOfOtherIds(init, threshold, id);
    } else {
      assert entries[j] == init[j];
      BatchGroupsByGame(init, threshold, j);
      assert last.id != id;
      RecordsOfNone(Contribution(last, threshold), id);
    }
  }

  /** A game's own records carry its identifier and are sound. */
  lemma OwnRecordsAreSound(e: LoadedGame, threshold: real)
    ensures forall m :: m in Contribution(e, threshold) ==> Sound(m, e.id, threshold)
  {
    var r := AnalyzeGame(e.game, e.id, threshold);
    if r.Some? {
      forall m | m in r.value ensures Sound(m, e.id, threshold) {
        var k :| 0 <= k < |r.value| && r.value[k] == m;
      }
    }
  }

  /** A batch over games none of which is named `id` holds no record of `id`. */
  lemma {:induction false} NoRecordsOfOtherIds(entries: seq<LoadedGame>, threshold: real, id: string)
    requires forall j :: 0 <= j < |entries| ==> entries[j].id != id
    ensures RecordsOf(BatchResult(entries, threshold), id) == []
  {
    BatchRecordsAreSound(entries, threshold);
    RecordsOfNone(BatchResult(entries, threshold), id);
  }

  /** `analyze_multiple_games` as a loop that extends one list game by game. */
  method AnalyzeMultipleGames(entries: seq<LoadedGame>, threshold: real)
    returns (all: seq<CriticalMove>)
    ensures all == BatchResult(entries, threshold)
    ensures forall m :: m in all ==> Sound(m, m.gameId, threshold)
  {
    all := [];
    var i := 0;
    while i < |entries|
      invariant i <= |entries|
      invariant all == BatchResult(entries[..i], threshold)
    {
      var e := entries[i];
      var found := AnalyzeGameLoop(e.game, e.id, threshold);
      if found.Some? {
        all := all + found.value;
      }
      assert entries[..i + 1] == entries[..i] + [e];
      BatchSnoc(entries[..i], e, threshold);
      i := i + 1;
    }
    assert entries[..i] == entries;
    BatchRecordsAreSound(entries, threshold);
  }

  /**
   The whole pipeline from files to records: games from distinct files keep
   their records apart, so each game's records can be read back from the
   batch by its identifier.
   */
  lemma LoadedBatchGroupsByGame(files: seq<PgnFile>, threshold: real, j: nat)
    requires StemsDistinct(files)
    requires j < |Loaded(files)|
    ensures RecordsOf(BatchResult(Loaded(files), threshold), Loaded(files)[j].id)
            == Contribution(Loaded(files)[j], threshold)
  {
    LoadedIdsDistinct(files);
    BatchGroupsByGame(Loaded(files), threshold, j);
  }
}
