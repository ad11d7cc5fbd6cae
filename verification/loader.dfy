/**
 Game loading of `ChessAnalyzer.load_pgn_files`: the games of each PGN
 file, in file order, each paired with the identifier `<stem>_<k>` where
 `k` counts the games of that file from 1.

 Globbing, opening and parsing are the filesystem's and the PGN reader's
 work; a file is given as its stem, whether it could be opened, and the
 outcomes of the successive reader calls.
 */
module Loader {
  import opened Scanner

  /**
   What one call of the PGN reader produced: the next game, the end of the
   file (the reader returned `None`), or an exception.
   */
  datatype ReadOutcome = GameRead(game: Game) | EndOfFile | Raised

  /**
   One PGN file: its stem, whether it could be opened, and the outcomes the
   successive reader calls would produce. Reading stops at the first outcome
   that is not a game; outcomes that run out are read as the end of the file.
   */
  datatype PgnFile = PgnFile(stem: string, openable: bool, outcomes: seq<ReadOutcome>)

  /** The number of leading games in `outcomes`: the reader calls that returned a game before the first stop. */
  function ReadCount(outcomes: seq<ReadOutcome>): nat {
    if |outcomes| == 0 || !outcomes[0].GameRead? then 0 else 1 + ReadCount(outcomes[1..])
  }

  /** The leading games are all games, and the call after them, if any, is a stop. */
  lemma {:induction false} ReadCountStopsAtFirstNonGame(outcomes: seq<ReadOutcome>)
    ensures ReadCount(outcomes) <= |outcomes|
    ensures forall i :: 0 <= i < ReadCount(outcomes) ==> outcomes[i].GameRead?
    ensures ReadCount(outcomes) < |outcomes| ==> !outcomes[ReadCount(outcomes)].GameRead?
  {
    if |outcomes| > 0 && outcomes[0].GameRead? {
      var tail := outcomes[1..];
      ReadCountStopsAtFirstNonGame(tail);
      assert forall i :: 1 <= i < |outcomes| ==> outcomes[i] == tail[i - 1];
    }
  }

  /**
   The games the inner loop appends for a file: none when it could not be
   opened, else the games read before the reader returned `None` or raised
   (`GamesAreLeadingReads`).
   */
  function Games(f: PgnFile): seq<Game> {
    if !f.openable then []
    else
      var n := ReadCount(f.outcomes);
      ReadCountStopsAtFirstNonGame(f.outcomes);
      seq(n, i requires 0 <= i < n => f.outcomes[i].game)
  }

  /**
   A file yields no game when it cannot be opened, and otherwise exactly the
   games of the reader calls before the first one that did not return a game.
   */
  lemma GamesAreLeadingReads(f: PgnFile)
    ensures !f.openable ==> Games(f) == []
    ensures f.openable ==> |Games(f)| <= |f.outcomes|
    ensures f.openable ==> forall i :: 0 <= i < |Games(f)| ==> f.outcomes[i] == GameRead(Games(f)[i])
    ensures f.openable && |Games(f)| < |f.outcomes| ==> !f.outcomes[|Games(f)|].GameRead?
  {
    ReadCountStopsAtFirstNonGame(f.outcomes);
  }

  datatype LoadedGame = LoadedGame(game: Game, id: string)

  function DigitChar(d: nat): (c: char)
    requires d < 10
    ensures '0' <= c <= '9'
  {
    ('0' as int + d) as char
  }

  /** Python's `str(k)` for a natural number: its decimal digits. */
  function DecimalString(k: nat): (s: string)
    ensures 1 <= |s|
    ensures |s| == 1 <==> k < 10
    ensures forall i :: 0 <= i < |s| ==> '0' <= s[i] <= '9'
    ensures s[|s| - 1] == DigitChar(k % 10)
  {
    if k < 10 then [DigitChar(k)] else DecimalString(k / 10) + [DigitChar(k % 10)]
  }

  /** Different numbers have different decimal strings. */
  lemma {:induction false} DecimalStringInjective(a: nat, b: nat)
    requires DecimalString(a) == DecimalString(b)
    ensures a == b
    decreases a
  {
    var s := DecimalString(a);
    assert DigitChar(a % 10) == DigitChar(b % 10);
    if a >= 10 {
      assert b >= 10;
      assert DecimalString(a / 10) == s[..|s| - 1] == DecimalString(b / 10);
      DecimalStringInjective(a / 10, b / 10);
    }
  }

  /** The identifier `f"{stem}_{k}"` of the `k`-th game of a file. */
  function GameId(stem: string, k: nat): string {
    stem + "_" + DecimalString(k)
  }

  /**
   The shape of an identifier: the stem, an underscore, then only digits,
   ending in the last digit of the game number.
   */
  lemma GameIdShape(stem: string, k: nat)
    ensures var id := GameId(stem, k);
            && |stem| + 2 <= |id|
            && id[..|stem|] == stem && id[|stem|] == '_'
            && (forall i :: |stem| < i < |id| ==> '0' <= id[i] <= '9')
            && id[|id| - 1] == DigitChar(k % 10)
  {
    var id, d := GameId(stem, k), DecimalString(k);
    assert forall i :: |stem| < i < |id| ==> id[i] == d[i - |stem| - 1];
  }

  /**
   An identifier determines both the stem and the game number: the part
   after the last underscore is the number, since digits contain none.
   */
  lemma GameIdInjective(s1: string, k1: nat, s2: string, k2: nat)
    requires GameId(s1, k1) == GameId(s2, k2)
    ensures s1 == s2 && k1 == k2
  {
    var x := GameId(s1, k1);
    var d1, d2 := DecimalString(k1), DecimalString(k2);
    assert x == s1 + "_" + d1 == s2 + "_" + d2;
    assert x[|s1|] == '_';
    assert x[|s2|] == '_';
    assert |s1| == |s2|;
    assert s1 == x[..|s1|] == s2;
    assert d1 == x[|s1| + 1..] == d2;
    DecimalStringInjective(k1, k2);
  }

  /** What reading one file contributes: its stem and the games read from it. */
  datatype FileGames = FileGames(stem: string, games: seq<Game>)

  function ReadFile(f: PgnFile): FileGames {
    FileGames(f.stem, Games(f))
  }

  /** Every file read in turn. */
  function ReadAll(files: seq<PgnFile>): (fs: seq<FileGames>)
    ensures |fs| == |files|
    ensures forall i :: 0 <= i < |files| ==> fs[i] == ReadFile(files[i])
  {
    seq(|files|, i requires 0 <= i < |files| => ReadFile(files[i]))
  }

  /** The loaded entries of one file: its games numbered from 1. */
  function FileEntries(f: FileGames): (es: seq<LoadedGame>)
    ensures |es| == |f.games|
    ensures forall k :: 0 <= k < |es| ==> es[k] == LoadedGame(f.games[k], GameId(f.stem, k + 1))
  {
    seq(|f.games|, k requires 0 <= k < |f.games| => LoadedGame(f.games[k], GameId(f.stem, k + 1)))
  }

  /** The entries of a list of read files, file order then game order. */
  function Layout(files: seq<FileGames>): seq<LoadedGame> {
    if |files| == 0 then []
    else Layout(files[..|files| - 1]) + FileEntries(files[|files| - 1])
  }

  /** Number of games in the first `f` files: where file `f`'s entries start. */
  function Offset(files: seq<FileGames>, f: nat): nat
    requires f <= |files|
  {
    if f == 0 then 0 else Offset(files, f - 1) + |files[f - 1].games|
  }

  /** Entry `Offset(f) + k` of `es` is game `k` of file `f`, named `<stem>_<k + 1>`. */
  ghost predicate PlacedAt(files: seq<FileGames>, es: seq<LoadedGame>, f: nat, k: nat)
    requires f < |files| && k < |files[f].games|
  {
    && Offset(files, f) + k < |es|
    && es[Offset(files, f) + k] == LoadedGame(files[f].games[k], GameId(files[f].stem, k + 1))
  }

  /**
   Where each game lands: game `k` of file `f` is entry `Offset(f) + k`,
   identified as `<stem of f>_<k + 1>`, and nothing else is loaded.
   */
  lemma {:induction false} LayoutPlacement(files: seq<FileGames>)
    ensures |Layout(files)| == Offset(files, |files|)
    ensures forall f, k :: 0 <= f < |files| && 0 <= k < |files[f].games| ==>
              PlacedAt(files, Layout(files), f, k)
  {
    if |files| > 0 {
      var init := files[..|files| - 1];
      LayoutPlacement(init);
      OffsetOfPrefix(files, init, |init|);
      forall f, k | 0 <= f < |files| && 0 <= k < |files[f].games|
        ensures PlacedAt(files, Layout(files), f, k)
      {
        if f < |init| {
          PlacedInEarlierFile(files, f, k);
        } else {
          assert Layout(files) == Layout(init) + FileEntries(files[f]);
        }
      }
    }
  }

  /** Adding a file at the end leaves the earlier files' entries where they were. */
  lemma PlacedInEarlierFile(files: seq<FileGames>, f: nat, k: nat)
    requires |files| > 0
    requires f < |files| - 1 && k < |files[f].games|
    requires var init := files[..|files| - 1];
             forall f', k' :: 0 <= f' < |init| && 0 <= k' < |init[f'].games| ==>
               PlacedAt(init, Layout(init), f', k')
    requires |Layout(files[..|files| - 1])| == Offset(files[..|files| - 1], |files| - 1)
    ensures PlacedAt(files, Layout(files), f, k)
  {
    var init := files[..|files| - 1];
    assert files[f] == init[f];
    assert PlacedAt(init, Layout(init), f, k);
    OffsetOfPrefix(files, init, f);
    OffsetMonotone(init, f + 1, |init|);
    var i := Offset(files, f) + k;
    assert i < |Layout(init)|;
    assert Layout(files) == Layout(init) + FileEntries(files[|files| - 1]);
    assert Layout(files)[i] == Layout(init)[i];
  }

  /** Offsets only look at the files before them. */
  lemma {:induction false} OffsetOfPrefix(files: seq<FileGames>, init: seq<FileGames>, f: nat)
    requires init <= files
    requires f <= |init|
    ensures Offset(files, f) == Offset(init, f)
  {
    if f > 0 {
      OffsetOfPrefix(files, init, f - 1);
    }
  }

  lemma {:induction false} OffsetMonotone(files: seq<FileGames>, f: nat, g: nat)
    requires f <= g <= |files|
    ensures Offset(files, f) <= Offset(files, g)
    decreases g - f
  {
    if f < g {
      OffsetMonotone(files, f, g - 1);
    }
  }

  /** Entries have pairwise different identifiers. */
  ghost predicate IdsDistinct(es: seq<LoadedGame>) {
    forall i, j :: 0 <= i < j < |es| ==> es[i].id != es[j].id
  }

  /** Read files with pairwise different stems. */
  ghost predicate GroupStemsDistinct(files: seq<FileGames>) {
    forall i, j :: 0 <= i < j < |files| ==> files[i].stem != files[j].stem
  }

  /** Every loaded identifier is `<stem>_<k>` for a file of the list and `k >= 1`. */
  lemma {:induction false} LayoutIdShape(files: seq<FileGames>, e: LoadedGame)
    requires e in Layout(files)
    ensures exists f, k :: 0 <= f < |files| && 1 <= k <= |files[f].games|
                           && e.id == GameId(files[f].stem, k)
  {
    var init := files[..|files| - 1];
    var last := files[|files| - 1];
    if e in Layout(init) {
      LayoutIdShape(init, e);
      var f, k :| 0 <= f < |init| && 1 <= k <= |init[f].games| && e.id == GameId(init[f].stem, k);
      assert files[f] == init[f];
    } else {
      var es := FileEntries(last);
      var k :| 0 <= k < |es| && es[k] == e;
      assert e.id == GameId(files[|files| - 1].stem, k + 1);
    }
  }

  /**
   With distinct file stems, no two loaded games share an identifier:
   identifiers from one file differ in their number, identifiers from two
   files in their stem.
   */
  lemma {:induction false} LayoutIdsDistinct(files: seq<FileGames>)
    requires GroupStemsDistinct(files)
    ensures IdsDistinct(Layout(files))
  {
    if |files| > 0 {
      var init := files[..|files| - 1];
      var last := files[|files| - 1];
      LayoutIdsDistinct(init);
      var a, b := Layout(init), FileEntries(last);
      var es: seq<LoadedGame> := a + b;
      assert Layout(files) == es;
      forall i, j | 0 <= i < j < |es| ensures es[i].id != es[j].id {
        if j < |a| {
          assert es[i] == a[i] && es[j] == a[j];
        } else if i >= |a| {
          if b[i - |a|].id == b[j - |a|].id {
            GameIdInjective(last.stem, i - |a| + 1, last.stem, j - |a| + 1);
          }
        } else {
          assert a[i] in a;
          LayoutIdShape(init, a[i]);
          var f, k :| 0 <= f < |init| && 1 <= k <= |init[f].games| && a[i].id == GameId(init[f].stem, k);
          assert files[f] == init[f];
          assert init[f].stem != last.stem;
          if a[i].id == b[j - |a|].id {
            GameIdInjective(init[f].stem, k, last.stem, j - |a| + 1);
          }
        }
      }
    }
  }

  /** Loading one more file appends its entries. */
  lemma LayoutSnoc(files: seq<FileGames>, f: FileGames)
    ensures Layout(files + [f]) == Layout(files) + FileEntries(f)
  {
    assert (files + [f])[..|files|] == files;
  }

  /** Loading distributes over splitting the file list. */
  lemma {:induction false} LayoutAppend(a: seq<FileGames>, b: seq<FileGames>)
    ensures Layout(a + b) == Layout(a) + Layout(b)
    decreases |b|
  {
    if |b| == 0 {
      assert a + b == a;
    } else {
      var b', last := b[..|b| - 1], b[|b| - 1];
      assert a + b == (a + b') + [last];
      assert b == b' + [last];
      LayoutSnoc(a + b', last);
      LayoutSnoc(b', last);
      LayoutAppend(a, b');
    }
  }

  /** The result of `load_pgn_files`: every file read, then numbered, in file order. */
  function Loaded(files: seq<PgnFile>): seq<LoadedGame> {
    Layout(ReadAll(files))
  }

  /** Files of one directory have pairwise different stems. */
  ghost predicate StemsDistinct(files: seq<PgnFile>) {
    forall i, j :: 0 <= i < j < |files| ==> files[i].stem != files[j].stem
  }

  /**
   With distinct file stems, no two loaded games share an identifier.
   */
  lemma LoadedIdsDistinct(files: seq<PgnFile>)
    requires StemsDistinct(files)
    ensures IdsDistinct(Loaded(files))
  {
    LayoutIdsDistinct(ReadAll(files));
  }

  /** `load_pgn_files` as a loop over the files, each read by `ReadEntries`. */
  method LoadPgnFiles(files: seq<PgnFile>) returns (games: seq<LoadedGame>)
    ensures games == Loaded(files)
    ensures |games| == Offset(ReadAll(files), |files|)
    ensures forall f, k :: 0 <= f < |files| && 0 <= k < |Games(files[f])| ==>
              PlacedAt(ReadAll(files), games, f, k)
  {
    var fs := ReadAll(files);
    games := [];
    var f := 0;
    while f < |files|
      invariant f <= |files|
      invariant games == Layout(fs[..f])
    {
      var entries := ReadEntries(files[f]);
      games := games + entries;
      assert fs[..f + 1] == fs[..f] + [fs[f]];
      LayoutSnoc(fs[..f], fs[f]);
      f := f + 1;
    }
    assert fs[..|files|] == fs;
    LayoutPlacement(fs);
  }

  /**
   The inner loop for one file: call the reader until it returns `None` or
   raises, numbering the games from 1. A file that cannot be opened gives
   nothing.
   */
  method ReadEntries(file: PgnFile) returns (entries: seq<LoadedGame>)
    ensures entries == FileEntries(ReadFile(file))
  {
    GamesAreLeadingReads(file);
    entries := [];
    if file.openable {
      var gameCount := 0;
      while gameCount < |file.outcomes| && file.outcomes[gameCount].GameRead?
        invariant gameCount <= |file.outcomes|
        invariant forall i :: 0 <= i < gameCount ==> file.outcomes[i].GameRead?
        invariant gameCount <= |Games(file)|
        invariant entries == FileEntries(ReadFile(file))[..gameCount]
      {
        var game := file.outcomes[gameCount].game;
        gameCount := gameCount + 1;
        entries := entries + [LoadedGame(game, GameId(file.stem, gameCount))];
      }
      assert gameCount == |Games(file)|;
    }
  }

  /** Reader outcomes that return the games `gs`, one per call. */
  function GameReads(gs: seq<Game>): (outcomes: seq<ReadOutcome>)
    ensures |outcomes| == |gs|
    ensures forall i :: 0 <= i < |gs| ==> outcomes[i] == GameRead(gs[i])
  {
    seq(|gs|, i requires 0 <= i < |gs| => GameRead(gs[i]))
  }

  /**
   A file yields exactly the games read before the first stop, whichever way
   reading stopped, and nothing read after the stop.
   */
  lemma GamesStopAtFirstNonGame(stem: string, gs: seq<Game>, stop: ReadOutcome, rest: seq<ReadOutcome>)
    requires !stop.GameRead?
    ensures Games(PgnFile(stem, true, GameReads(gs) + [stop] + rest)) == gs
    ensures Games(PgnFile(stem, true, GameReads(gs))) == gs
  {
    var outcomes := GameReads(gs) + [stop] + rest;
    var r := Games(PgnFile(stem, true, outcomes));
    GamesAreLeadingReads(PgnFile(stem, true, outcomes));
    assert forall i :: 0 <= i < |gs| ==> outcomes[i] == GameRead(gs[i]);
    assert !outcomes[|gs|].GameRead?;
    assert |r| == |gs|;
    GamesAreLeadingReads(PgnFile(stem, true, GameReads(gs)));
  }

  /**
   A raise at reader call `k` keeps the games read before it: the file
   yields the first `k` of the games it would otherwise yield.
   */
  lemma RaiseKeepsGamesBefore(f: PgnFile, k: nat, rest: seq<ReadOutcome>)
    requires k <= |f.outcomes|
    ensures var g := f.(outcomes := f.outcomes[..k] + [Raised] + rest);
            Games(g) == Games(f)[..if k < |Games(f)| then k else |Games(f)|]
  {
    var g := f.(outcomes := f.outcomes[..k] + [Raised] + rest);
    var m := if k < |Games(f)| then k else |Games(f)|;
    GamesAreLeadingReads(f);
    GamesAreLeadingReads(g);
    if f.openable {
      var r := Games(g);
      assert g.outcomes[k] == Raised;
      forall i | 0 <= i < m ensures g.outcomes[i] == GameRead(Games(f)[i]) {
        assert g.outcomes[i] == f.outcomes[i];
      }
      assert m < k ==> g.outcomes[m] == f.outcomes[m] && !f.outcomes[m].GameRead?;
      assert |r| == m;
    }
  }

  /**
   A raise while reading one file changes only that file's entries, which
   keep the games read before the raise; the entries of the files before
   and after it are loaded unchanged.
   */
  lemma RaiseInOneFileKeepsOthers(before: seq<PgnFile>, f: PgnFile, k: nat, rest: seq<ReadOutcome>,
                                  after: seq<PgnFile>)
    requires k <= |f.outcomes|
    ensures var g := f.(outcomes := f.outcomes[..k] + [Raised] + rest);
            var m := if k < |Games(f)| then k else |Games(f)|;
            && Loaded(before + [f] + after) == Loaded(before) + FileEntries(ReadFile(f)) + Loaded(after)
            && Loaded(before + [g] + after) == Loaded(before) + FileEntries(ReadFile(f))[..m] + Loaded(after)
  {
    var g := f.(outcomes := f.outcomes[..k] + [Raised] + rest);
    var m := if k < |Games(f)| then k else |Games(f)|;
    RaiseKeepsGamesBefore(f, k, rest);
    assert FileEntries(ReadFile(g)) == FileEntries(ReadFile(f))[..m];
    SplitAround(before, f, after);
    SplitAround(before, g, after);
  }

  /** Loading the files around one file loads them as if that file were read alone. */
  lemma SplitAround(before: seq<PgnFile>, f: PgnFile, after: seq<PgnFile>)
    ensures Loaded(before + [f] + after) == Loaded(before) + FileEntries(ReadFile(f)) + Loaded(after)
  {
    var fs := ReadAll(before + [f] + after);
    assert fs == ReadAll(before) + [ReadFile(f)] + ReadAll(after);
    LayoutAppend(ReadAll(before) + [ReadFile(f)], ReadAll(after));
    LayoutSnoc(ReadAll(before), ReadFile(f));
  }

  /**
   The loading example: a file that cannot be opened, then a file whose
   third reader call raises, give exactly the two games read before the
   raise, as `club_1` and `club_2`.
   */
  lemma TwoGameFileExample(g1: Game, g2: Game, g3: Game)
    ensures var files := [PgnFile("broken", false, []),
                          PgnFile("club", true, [GameRead(g1), GameRead(g2), Raised, GameRead(g3)])];
            Loaded(files) == [LoadedGame(g1, "club_1"), LoadedGame(g2, "club_2")]
  {
    var files := [PgnFile("broken", false, []),
                  PgnFile("club", true, [GameRead(g1), GameRead(g2), Raised, GameRead(g3)])];
    GamesStopAtFirstNonGame("club", [g1, g2], Raised, [GameRead(g3)]);
    assert GameReads([g1, g2]) + [Raised] + [GameRead(g3)] == files[1].outcomes;
    var fs := ReadAll(files);
    assert fs == [FileGames("broken", []), FileGames("club", [g1, g2])];
    assert fs[..1] == [fs[0]];
    assert fs[..1][..0] == [];
    assert Layout(fs[..1]) == [];
    assert DecimalString(1) == "1";
    assert DecimalString(2) == "2";
    assert GameId("club", 1) == "club_1";
    assert GameId("club", 2) == "club_2";
    assert FileEntries(fs[1]) == [LoadedGame(g1, "club_1"), LoadedGame(g2, "club_2")];
  }
}
