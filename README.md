# Profile-similarity lookup of the metacognitive feedback generator

The Streamlit script `meta.py` writes feedback on a student's programming answer. Before it
calls the language model, it finds the feedback of earlier, similar students. The user types
a "metacognitive profile" of 16 integers, such as `[1,3,2,...]`. The script then:

1. parses the profile: strip `[` and `]` from both ends, split on `,`, and apply `int` to
   every piece. A `ValueError` shows a message instead.
2. continues only when the button is pressed, the question and the answer are non-empty, and
   the profile has exactly 16 components.
3. writes a `distance` column into the in-memory case table. Each row's value is the L1
   distance `sum(|a - b|)` over the zipped query and stored profiles.
4. takes the three rows with the smallest distance. pandas' `nsmallest` with `keep='first'`
   breaks ties by table order and lists the rows nearest first. That holds on the path pandas
   takes for tables of more than three rows.
5. joins those rows' feedback texts with single spaces.

This project models steps 1-5 in Dafny and proves what each step promises. Each stage has
its own module:

- `Numbers` (`numbers.dfy`): `Min` and `Abs`.
- `Text` (`text.dfy`): Python's `str.strip(chars)`, `str.split(sep)` and `sep.join`. It
  proves the characterising facts of strip and that split and join invert each other.
- `ProfileParse` (`profile_parse.dfy`): `int()` on ASCII text and the profile parse. It
  proves `int` sound and complete against a grammar of integer literals. The grammar
  includes Python's default limit of 4300 digits, and longer literals are proved rejected.
  It also proves that a formatted profile parses back to itself.
- `ProfileDistance` (`distance.dfy`): `zip` and the L1 distance. It proves that distance is
  non-negative, symmetric, zero exactly on equal paired components, and ignores components
  past the shorter profile.
- `Selection` (`selection.dfy`): `nsmallest(k)` with `keep='first'`. It is a stable ranking
  of row indices with the first `k` taken. It is proved to meet the selection property
  (length, rank order, every selected row ahead of every row left out). That property is
  proved to have exactly one solution.
- `Feedback` (`feedback.dfy`): the case table as a class `FeedbackFrame`. Its `distance`
  column is an `array<int>` that a method fills in a loop. The module also has the
  retrieval and join, and the request gate `HandleRequest`. `HandleRequest` has four
  outcomes: the lookup ran; the missing-fields message; the `NameError` at meta.py:85 when
  no profile was assigned; and an uncaught exception in the lookup when the distance column
  is not numeric. That happens when the table is empty, or when a distance is above
  2^64 - 1. The exception is `OverflowError` at meta.py:89 or `TypeError` at meta.py:92.
  The method `Run` performs the same request against a `FeedbackFrame` and is proved to
  have the outcome `HandleRequest` gives, so the class is the stateful rendering of the
  same lookup.
- `Scenarios` (`scenarios.dfy`): concrete requests worked through the model, such as
  nearest-first order, ties kept in table order, a rejected wrong length, a rejected stray
  character or over-long literal, a missing profile, and an overflowing distance.

Where the code and its informal description disagree, the model follows the code.

- A well-formed profile with the wrong number of integers, such as `[1,2,3]`, parses
  without error. The run then ends at meta.py:116 with "Please enter all required
  fields.". It does not show the invalid-profile message of meta.py:82. `HandleRequest`
  returns `Rejected(false)` for it (`Feedback.WrongLengthRejected`).
- The empty vector written as `[]` is not a valid profile. Stripping leaves the empty
  string, its one piece is empty, and `int("")` fails (`ProfileParse.OnlyBracketsInvalid`).

## Model

| member | source | states |
|---|---|---|
| Text.StripShape | meta.py:80 | `strip` leaves a slice of the text. Only stripped characters come before and after it, and it neither starts nor ends with one of them. |
| Text.StripPadded | meta.py:80 | Stripping `a + b + d` gives exactly `b` when `a` and `d` consist of stripped characters and `b` does not start or end with one. |
| Text.StripIdempotent | meta.py:80 | Stripping twice is the same as stripping once. |
| Text.Strip | meta.py:80 | `strip("[]")`: the result is no longer than the text and neither starts nor ends with a stripped character. `StripShape` and `StripPadded` characterise it fully. |
| Text.Split | meta.py:80 | `split(",")` gives one piece more than there are commas, and no piece contains a comma. |
| Text.JoinSplit | meta.py:80 | Joining the pieces of a split with the separator gives back the text. |
| Text.SplitJoin | meta.py:80 | Splitting a join of at least one comma-free piece gives back the pieces. |
| Text.Join | meta.py:93 | Joining nothing gives `""`. Otherwise the length is the total of the items plus one separator between each pair. |
| Text.JoinSnoc | meta.py:93 | Appending an item appends one separator and the item. |
| ProfileParse.ParseInt | meta.py:80 | `int(piece)`, `None` for a `ValueError`. It is characterised by `ParseIntComplete`, `ParseIntSound`, `ParseIntRejectsLong` and `ParseIntRejectsStray`. |
| ProfileParse.ParseIntComplete | meta.py:80 | `int` accepts surrounding whitespace, an optional sign and 1-4300 digits, with the value they denote. |
| ProfileParse.ParseIntRejectsLong | meta.py:80-82 | A literal with more than 4300 digits gives a `ValueError`, whatever its sign and padding. |
| ProfileParse.ParseIntSound | meta.py:80 | Anything `int` accepts splits into whitespace, an optional sign, 1-4300 digits and whitespace, and its value is theirs. |
| ProfileParse.ParseIntRejectsStray | meta.py:80-82 | A piece containing a character that is not whitespace, a sign or a digit gives a `ValueError`. |
| ProfileParse.ParseShowInt | meta.py:80 | `int(str(n)) == n` for every integer that `str` renders (at most 4300 digits). |
| ProfileParse.DigitsShowNat | meta.py:80 | The decimal digits of `n` have value `n`. |
| ProfileParse.ParseEach | meta.py:80 | `map(int, ...)` converts every piece in order. |
| ProfileParse.Collect | meta.py:80-82 | `list(...)` fails iff some conversion fails. Otherwise it holds every converted value, in order. |
| ProfileParse.ParseProfile | meta.py:80-82 | The profile is a vector iff every piece is an integer. It then has one component per piece (commas + 1), each the value of its piece. |
| ProfileParse.OnlyBracketsInvalid | meta.py:80-82 | Text made only of brackets (including `[]`) is rejected with a `ValueError`. |
| ProfileParse.ParseFormatProfile | meta.py:75-80 | A non-empty vector of integers of at most 4300 digits, written as `[a,b,...]`, parses back to the same vector. |
| ProfileDistance.Zip | meta.py:90 | `zip` pairs equally placed components and stops at the shorter profile. |
| ProfileDistance.Distance | meta.py:90 | The distance is never negative. |
| ProfileDistance.DistanceTruncates | meta.py:90 | Components past the shorter profile's length do not affect the distance. |
| ProfileDistance.DistanceZeroIff | meta.py:90 | The distance is zero iff the profiles agree on every paired component. |
| ProfileDistance.DistanceSelf | meta.py:90 | A profile is at distance zero from itself. |
| ProfileDistance.DistanceSymmetric | meta.py:90 | The distance does not depend on which profile is the query. |
| ProfileDistance.DistanceSnoc | meta.py:90 | One more pair of components adds its absolute difference. |
| ProfileDistance.DistanceConstant | meta.py:90 | Constant profiles of length `n` with values `x` and `y` are `n * abs(x - y)` apart. |
| Selection.Insert | meta.py:92 | Inserting a row adds exactly that row: the result's multiset is the list's plus that row. |
| Selection.InsertRanked | meta.py:92 | Inserting a new row into a rank-ordered list keeps it rank-ordered. |
| Selection.RankAll | meta.py:92 | The stable sort lists the first `n` rows exactly once each, in rank order (distance, then table order). |
| Selection.NSmallest | meta.py:92 | `nsmallest(k)` returns `min(k, rows)` rows in rank order, each ahead of every row left out. |
| Selection.NSmallestProperties | meta.py:92 | Spelled out: rows distinct and in range, distances non-decreasing, earlier row first on ties, no row left out nearer (or equally near and earlier). |
| Selection.SelectionFirstOfRest | meta.py:92 | The row selected at position `t` ranks ahead of every row not among the first `t` selected. |
| Selection.SelectionPrefix | meta.py:92 | Two lists with the selection property agree on every prefix. |
| Selection.SelectionUnique | meta.py:92 | Any list of rows with the selection property is the one `NSmallest` returns. |
| Feedback.Distances | meta.py:89-91 | The `distance` column has one entry per row: that row's distance from the query. |
| Feedback.FeedbackOf | meta.py:92 | `['metacognitive_feedback'].tolist()` of the selected rows, in the selected order. |
| Feedback.SimilarFeedbacks | meta.py:92 | `min(3, rows)` feedback texts are retrieved. |
| Feedback.SimilarFeedbacksOfSelection | meta.py:92 | The retrieved feedbacks are those of any row choice with the `nsmallest` properties. |
| Feedback.SimilarFeedback | meta.py:92-93 | `" ".join(...)` of the three nearest feedbacks. Its shape is stated by `SimilarFeedbackShape`, and its selection by `SimilarFeedbacksOfSelection`. |
| Feedback.SimilarFeedbackShape | meta.py:93 | The joined text is the (at most three) retrieved feedbacks, with one space between them and none at either end. |
| Feedback.FeedbackFrame.constructor | meta.py:23 | The table holds the given rows and no `distance` column yet. |
| Feedback.FeedbackFrame.ComputeDistances | meta.py:89-91 | Assigns a new `distance` column whose entries are the rows' distances from the query. |
| Feedback.FeedbackFrame.Lookup | meta.py:89-93 | Computes the column. It fails (an uncaught exception in the lookup) iff the table is empty or some distance is above 2^64 - 1. Otherwise it returns the three nearest feedbacks joined with spaces. |
| Feedback.Run | meta.py:78-93 | Running the gate and `FeedbackFrame.Lookup` on a case table gives exactly the outcome `HandleRequest` states. |
| Feedback.HandleRequest | meta.py:78-93 | The lookup runs iff the button is pressed, the question and answer are non-empty, the non-empty profile parses to 16 integers, and the column is numeric (a non-empty table with every distance at most 2^64 - 1); it then runs on the parsed profile. The run stops with `NameError` iff the first three hold but no profile was assigned (empty or unparsable). It stops with an uncaught exception in the lookup (`OverflowError` at :89 or `TypeError` at :92) iff 16 integers parse but the column is not numeric. The invalid-profile message appears iff the non-empty profile failed to parse. |
| Feedback.WrongLengthRejected | meta.py:85 | A profile that parses to other than 16 integers never reaches the lookup, and no conversion error is reported. |
| Scenarios.TableDistances | meta.py:89-91 | Rows of constant profiles 0, 1 and 5 are at distances 0, `n` and `5n` from the zero query. |
| Scenarios.IncreasingSelected | meta.py:92 | Three rows at strictly increasing distances are selected in table order. |
| Scenarios.TableSelection | meta.py:92 | The zero query retrieves the three feedbacks nearest first. |
| Scenarios.NearestFirst | meta.py:89-93 | The zero query's joined feedback is `a b c`. |
| Scenarios.TiesSelected | meta.py:92 | Among four rows at equal distance, the first three are selected, in table order. |
| Scenarios.TiesKeepTableOrder | meta.py:92 | Four stored copies of the query give the first three feedbacks, in table order. |
| Scenarios.FormattedWrongLengthRejected | meta.py:80-85 | A formatted non-empty profile of other than 16 integers (each at most 4300 digits) is turned away without a conversion error. |
| Scenarios.FormattedProfileProceeds | meta.py:80-93 | A formatted profile of 16 integers (each at most 4300 digits), with a question and an answer, reaches the lookup with that profile when the column is numeric. Otherwise the lookup stops with an uncaught exception. |
| Scenarios.StrayCharacterRejected | meta.py:78-85 | A stray character in any piece shows the invalid-profile message. The run then ends at the missing-fields message, or at the `NameError` when the button, question and answer are all given. |
| Scenarios.LongLiteralRejected | meta.py:78-85 | A piece of more than 4300 digits behaves like a stray character. |
| Scenarios.EmptyProfileUnassigned | meta.py:78-85 | The button with a question and an answer but no profile stops at the `NameError`, without the invalid-profile message. |
| Scenarios.LargeDistanceOverflows | meta.py:89-92 | A stored profile more than 2^64 - 1 away from a well-formed 16-component query makes the lookup stop with an uncaught exception. |
| Scenarios.EmptyTableNotNumeric | meta.py:89-92 | With an empty case table, a well-formed 16-component query makes the run stop at `nsmallest`. |

## Left out

- User interface: Streamlit widgets, messages and timing (meta.py:70-75, 86, 109-116). A request's result is the `Outcome` datatype instead.
- Setup: environment loading, PDF loading, chunking, the FAISS index, the language model and the agent (meta.py:17-67) are I/O and foreign calls. So is the agent call after the lookup, with its error handler and display (meta.py:95-114). The model ends when the joined feedback is computed.
- Reading `modified_dataset.csv` (meta.py:23) and the `eval` of each stored profile string (meta.py:90) are not modelled. Case rows hold profiles that are already parsed, so a stored string that does not evaluate is not a case here.
- HandleRequest: streamlit re-runs the script from the top for each interaction, so there is no state between requests. Each call is independent.
- ProfileParse.ParseInt: it models `int` on ASCII text only. Python also accepts underscores between digits and non-ASCII digits or whitespace; the model rejects them.
- ProfileParse.MaxStrDigits: it uses Python's default limit of 4300 digits. A limit changed with `sys.set_int_max_str_digits` or `PYTHONINTMAXSTRDIGITS` is not modelled.
- Feedback.FeedbackFrame.ComputeDistances: it always assigns the column, holding the exact Python integers `sum` computes. pandas does not always assign it. While inferring the dtype, `apply` converts each integer to a float. Suppose the first distance above 2^64 - 1, in table order, is too large for a float (about 2^1024). Then meta.py:89 raises `OverflowError` and `distance` is never assigned. Otherwise pandas stores the column as `int64`, `uint64` or Python objects.
- Feedback.FeedbackFrame.Lookup: its failure (`None`) is modelled by the column's content alone. The column is non-numeric iff the table is empty (`apply` then keeps the stored-profile column's object dtype) or a distance is above 2^64 - 1. The model does not distinguish the two exceptions. In the `OverflowError` case its `None` path still leaves the computed column in `distance`, where the script assigns nothing. Other dtype rules of pandas are not modelled.
- Selection.NSmallest: it promises ties in table order for every table. For a table of at most three rows, pandas takes `sort_values(...).head(n)` instead, with numpy's default `quicksort`. numpy does not promise that sort is stable, so the order of tied rows in such a table is not promised by the source.
- The other columns of the case table are not modelled. Only the stored profile and the feedback text are kept.
