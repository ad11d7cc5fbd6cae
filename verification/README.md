# Chess game analyzer: critical-move scan

This project models the analysis core of a batch chess-game analyzer. The
analyzer replays every game of a directory of PGN files and asks a UCI engine
to evaluate each position. It flags the moves after which the evaluation
swings by at least a threshold (the "critical moves") and writes them to
JSON, HTML and prompt-text reports.

The engine and the chess library act as oracles. The model receives what they
answered as input data:

- each position reached is either terminal, or live with the engine's reply,
  the side to move and the FEN string;
- each move carries its SAN and the engine's best move for the position
  before it.

The modules follow the analyzer's structure:

| module | file | what it holds |
|---|---|---|
| `Wrappers` | wrappers.dfy | `Option`, for Python's `None` and for aborted games |
| `Evaluation` | evaluation.dfy | the score mapping of `evaluate_position` |
| `Records` | records.dfy | the `CriticalMove` record, the side label, the six comments |
| `Scanner` | scanner.dfy | `analyze_game` as a recursive scan with an accumulator, as a per-move reference, and as a loop; proofs that they agree |
| `Loader` | loader.dfy | `load_pgn_files`: the reader loop per file, stopping at `None` or an exception, and the game numbering `<stem>_<k>` |
| `Batch` | batch.dfy | the concatenation of `analyze_multiple_games` |
| `Ranking` | ranking.dfy | the stable sort by decreasing delta, the top ten, the HTML marker |
| `JsonReport` | json_report.dfy | the JSON document of `save_json_report` and a decoder for it |

Evaluations are Dafny `real`s. The division by 100 is exact.

Three behaviours of the code that are easy to misread:

- A mate distance `n <= 0` maps to `-1000 - n`. For example, a mate in -3
  scores -997, not -1003, so the mapping is not sign-symmetric.
- A PGN file whose reading raises keeps the games read before the error, because
  each game is appended as soon as it is read. The file is not skipped as a whole.
- The side labels are the code's "Brancas" (White) and "Pretas" (Black).

## Model

| member | source | states |
|---|---|---|
| Evaluation.Evaluate | game-analyzer.py:104-113 | A centipawn score becomes a value that gives back the centipawns when multiplied by 100. A mate in n > 0 scores above 1000. A mate in n with -1000 < n <= 0 scores in [-1000, 0). An engine error gives 0.0. |
| Evaluation.MateDistanceRecovered | game-analyzer.py:104-107 | Mate distances above -1000 can be read back from their score, so two such mates never share a score. |
| Evaluation.MateOutranksCentipawns | game-analyzer.py:104-109 | A winning mate outranks every centipawn score smaller than 1000 pawns in size. |
| Evaluation.MateMappingIsNotSymmetric | game-analyzer.py:107 | A mate in -3 scores -997 and a mate in 3 scores 1003, so the mapping is not a mirror image. A mate distance of 0 scores -1000. |
| Records.SideLabel | game-analyzer.py:179 | The label is "Brancas" exactly when Black is to move after the move. In both cases it names the colour that made the move, the opponent of the side to move. |
| Records.DirectionOf | game-analyzer.py:211 | A move is an improvement exactly when the evaluation strictly rises. An unchanged evaluation counts as a regression. |
| Records.BucketOf | game-analyzer.py:212-224 | The buckets are: large exactly when delta >= 5, medium exactly when 3 <= delta < 5, small exactly when delta < 3. |
| Records.Comment | game-analyzer.py:199-224 | `_generate_move_comment` returns the text of direction d and bucket b exactly when the evaluation moved in direction d (DirectionOf) and the swing lies in bucket b (BucketOf). |
| Records.CommentTextIdentifies | game-analyzer.py:211-224 | A comment text names exactly one direction and one bucket. |
| Records.CommentTextsDistinct | game-analyzer.py:211-224 | The six comment texts are pairwise different, so a comment determines its direction and its bucket. |
| Records.CommentExamples | game-analyzer.py:211-224 | 3.0 then 0.5 (delta 2.5) gets the lowest regression text. 1.0 then 4.5 (delta 3.5) gets the middle improvement text. |
| Scanner.AnalyzeGame | game-analyzer.py:132-197 | `analyze_game` returns a result exactly when no move raises. The records then have strictly increasing move numbers, each between 1 and the number of moves, and each is sound for the game id and the threshold. ScanMatchesReference and EmittedExactlyWhenCritical say which records these are. PrevEvalBeforeAnyLive covers the start value of lines 144-152. |
| Scanner.ScanFrom | game-analyzer.py:154-191 | The forward scan with its carried evaluation returns a result exactly when no move makes the library raise. Its records have strictly increasing move numbers, each in (k, number of moves]. Each record carries the game id, has delta = \|after - before\| >= threshold, and has the comment for its evaluations. |
| Scanner.ScanMatchesReference | game-analyzer.py:143-197 | The scan equals the per-move reference for a game that completes: the records of the critical moves in move order. A game with a faulting move yields nothing. |
| Scanner.ScanFromSuffix | game-analyzer.py:154-191 | Scanning from move k with the evaluation carried to k completes the reference list of the moves before k. |
| Scanner.ExpectedMembers | game-analyzer.py:166-188 | The reference list holds exactly the records of critical moves: each member is the record of the critical move its number names, and every critical move's record is present. |
| Scanner.EmittedExactlyWhenCritical | game-analyzer.py:161-188 | Move i has a record exactly when it reaches a live position and \|eval - carried eval\| >= threshold (equality counts). That record holds the SAN, both evaluations, their distance, the side label, the post-move FEN, the engine's best move and the comment. |
| Scanner.RecordOfMove | game-analyzer.py:169-188 | A critical move's record is in the result. Any record numbered i + 1 is the record of move i, and move i is critical. |
| Scanner.TerminalMoveIsSkipped | game-analyzer.py:155-163 | A move that ends the game gets no record and leaves the carried evaluation unchanged. The move counter still passes it. |
| Scanner.PrevEvalIsLatestLive | game-analyzer.py:180-191 | The evaluation carried into move i is that of the latest earlier live position, whether or not that move was critical. |
| Scanner.PrevEvalBeforeAnyLive | game-analyzer.py:144-152 | Before any live position is reached, the carried evaluation is the starting position's (0.0 when the game starts over). |
| Scanner.AnalyzeGameLoop | game-analyzer.py:132-197 | The loop with `previous_eval` and the move counter returns the recursive scan's result. It returns nothing when a move raises, and otherwise the reference list. |
| Scanner.WorkedExample | game-analyzer.py:161-188 | Evaluations 0.0, 1.0, 4.5, 4.6 with threshold 2.0 give one record, for move 2: delta 3.5, side "Pretas", middle improvement text. |
| Loader.ReadCountStopsAtFirstNonGame | game-analyzer.py:245-248 | The number of reader calls that return a game before the first `None` or exception: all of them are games, and the call after them, if there is one, is not. |
| Loader.GamesAreLeadingReads | game-analyzer.py:242-257 | A file that cannot be opened yields no game. Otherwise the file yields exactly the games of the reader calls before the first call that returned `None` or raised. |
| Loader.GamesStopAtFirstNonGame | game-analyzer.py:245-257 | Games followed by a `None` or an exception give exactly those games, whichever way the reading stopped. Nothing after the stop is read. Games with no stop give exactly those games. |
| Loader.RaiseKeepsGamesBefore | game-analyzer.py:245-257 | A raise at reader call k keeps the games read before it. The file yields the first min(k, n) of its n games. |
| Loader.RaiseInOneFileKeepsOthers | game-analyzer.py:241-257 | A raise while reading one file changes only that file's block of entries, which keeps the games read before the raise. The entries of the files before and after it are unchanged. |
| Loader.ReadEntries | game-analyzer.py:243-252 | The inner loop calls the reader until it returns `None` or raises and numbers the games from 1. It returns exactly the file's entries. |
| Loader.GameId | game-analyzer.py:251 | The identifier `f"{stem}_{k}"`. GameIdShape gives its shape, and GameIdInjective shows that it determines stem and number. |
| Loader.GameIdShape | game-analyzer.py:251 | An identifier is the stem, an underscore, then only digits, ending in the last digit of the game number. |
| Loader.DecimalString | game-analyzer.py:251 | The decimal form of k is a non-empty string of digits, one digit long exactly when k < 10, ending in the digit of k mod 10. |
| Loader.DecimalStringInjective | game-analyzer.py:251 | Different numbers have different decimal forms. |
| Loader.GameIdInjective | game-analyzer.py:251 | An identifier `<stem>_<k>` determines both the stem and k. |
| Loader.LayoutPlacement | game-analyzer.py:241-252 | Game k of read file f is entry Offset(f) + k, with id `<stem>_<k+1>`. Nothing else is loaded. |
| Loader.LayoutAppend | game-analyzer.py:241-252 | Loading a list of files split in two gives the two lists' entries one after the other. |
| Loader.LoadedIdsDistinct | game-analyzer.py:241-252 | When the file stems are distinct, no two loaded games share an id. |
| Loader.LoadPgnFiles | game-analyzer.py:236-259 | The outer loop gives the entries of every file in file order, numbered from 1 in each file, with each game placed as LayoutPlacement states. |
| Loader.TwoGameFileExample | game-analyzer.py:241-257 | A file that cannot be opened, then a file whose third reader call raises, give exactly two entries: `club_1` and `club_2`, the games read before the raise. |
| Batch.BatchResult | game-analyzer.py:276-288 | The batch is each game's contribution in game order. Every record in it comes from the analysis of one of the games. BatchAppend and BatchGroupsByGame carry the rest. |
| Batch.BatchAppend | game-analyzer.py:276-281 | The batch of two game lists is the concatenation of their batches. |
| Batch.FailedGameContributesNothing | game-analyzer.py:279-286 | A game whose analysis raises leaves the batch as if it were absent. |
| Batch.BatchRecordsAreSound | game-analyzer.py:276-288 | Every batch record is sound for its threshold and carries the id of one of the batch's games. |
| Batch.BatchGroupsByGame | game-analyzer.py:276-288 | With distinct ids, the batch records of game j are exactly its own analysis's records, in order. There are none when its analysis raised. |
| Batch.LoadedBatchGroupsByGame | game-analyzer.py:272-288 | For loaded files with distinct stems, each game's records can be read back from the batch by its id. |
| Batch.AnalyzeMultipleGames | game-analyzer.py:271-288 | The loop that extends one list game by game computes the batch, and all its records are sound. |
| Ranking.Insert | game-analyzer.py:335 | Insertion adds exactly the one record and keeps a list sorted by decreasing delta sorted. |
| Ranking.SortByDelta | game-analyzer.py:335 | The HTML order is a permutation of the records with non-increasing delta. |
| Ranking.SortIsStable | game-analyzer.py:335 | Records with equal delta keep their input order. |
| Ranking.PromptMoves | game-analyzer.py:379 | The prompts cover the first min(10, n) records of the HTML order. |
| Ranking.PromptMovesAreTop | game-analyzer.py:379 | Every prompted move comes from the list. No move left out has a larger delta than a prompted one. |
| Ranking.ClassOf | game-analyzer.py:336 | The HTML marker is "good" exactly when the move's direction is an improvement (DirectionOf: the evaluation strictly rose). |
| Ranking.ClassMatchesComment | game-analyzer.py:336 | The HTML marker is "good" exactly when the comment is an improvement text, and "error" exactly when it is a regression text. |
| JsonReport.EncodeMove | game-analyzer.py:428-439 | A move is written as an object with the ten fields in the file's order. |
| JsonReport.MoveRoundTrip | game-analyzer.py:428-439 | Reading a written move back gives the same record. An absent best move goes through null. |
| JsonReport.MovesRoundTrip | game-analyzer.py:427-441 | The move list reads back unchanged, in the input order. |
| JsonReport.EncodeReport | game-analyzer.py:420-442 | The document has the metadata object (timestamp, threshold, depth, total_moves) with total_moves = the number of moves, followed by the moves unsorted. |
| JsonReport.ReportRoundTrip | game-analyzer.py:420-442 | Reading the document back gives the same timestamp, threshold, depth and moves, with the count consistent. |

## Left out

- Engine process lifecycle (`start_engine`, `stop_engine`) and the UCI calls `engine.analyse` and `engine.play`. They belong to an external process. Their answers are inputs: `EngineReply` and the step's `bestBefore`.
- `get_best_move`: its reply, including `None` after an engine error, is the `bestBefore` input. It is queried only for critical moves. The model reads it only there, which gives the same records.
- python-chess internals: legal-move application, `is_game_over`, SAN and FEN generation, PGN parsing, and the point of view from which the library reports mate distances. All of this is library code. A move on which the library raises is the `Faulted` step.
- Filesystem and logging: globbing and its order, opening files, writing reports, log setup, and the progress log every ten moves. File order is the given input list.
- HTML and prompt templating, `:.2f` formatting, the CLI in `main`, and its early return when no critical move is found. These are presentation and plumbing. The report timestamp is a parameter.
- Floating point. Evaluations are exact reals. The distinction the JSON writer makes between integer and float numbers (mate scores are Python ints) is not modelled.
- Evaluation.Evaluate: the contract bounds mate scores only for distances above -1000. Below that, `-1000 - n` turns positive. Engines do not report such distances.
