/** Concrete requests worked through the model. */
module Scenarios {
  import opened Text
  import opened ProfileParse
  import opened ProfileDistance
  import opened Selection
  import opened Feedback

  /** Three stored cases whose `n`-component profiles are all zeros, all ones and all fives,
      with feedbacks `a`, `b` and `c`. */
  function Table(n: nat, a: string, b: string, c: string): seq<Case> {
    [Case(Constant(n, 0), a), Case(Constant(n, 1), b), Case(Constant(n, 5), c)]
  }

  lemma TableDistances(n: nat, a: string, b: string, c: string)
    ensures Distances(Constant(n, 0), Table(n, a, b, c)) == [0, n, 5 * n]
  {
    var q := Constant(n, 0);
    var d := Distances(q, Table(n, a, b, c));
    DistanceSelf(q);
    DistanceConstant(n, 0, 1);
    DistanceConstant(n, 0, 5);
    assert d[0] == Distance(q, q);
    assert d[1] == Distance(q, Constant(n, 1));
    assert d[2] == Distance(q, Constant(n, 5));
  }

  /** Three rows at strictly increasing distances are selected in table order. */
  lemma IncreasingSelected(a: int, b: int, c: int)
    requires a < b < c
    ensures IsSelection([a, b, c], Neighbours, [0, 1, 2])
  {
  }

  lemma TableSelection(n: nat, a: string, b: string, c: string)
    requires n > 0
    ensures SimilarFeedbacks(Constant(n, 0), Table(n, a, b, c), Neighbours) == [a, b, c]
  {
    TableDistances(n, a, b, c);
    IncreasingSelected(0, n, 5 * n);
    SimilarFeedbacksOfSelection(Constant(n, 0), Table(n, a, b, c), Neighbours, [0, 1, 2]);
    FirstThree(Table(n, a, b, c));
  }

  lemma FirstThree(cases: seq<Case>)
    requires |cases| == 3
    ensures FeedbackOf(cases, [0, 1, 2]) == [cases[0].feedback, cases[1].feedback, cases[2].feedback]
  {
  }

  /** Querying with the all-zero profile retrieves the three feedbacks nearest first (the
      distances are 0, n and 5n, so 0, 16 and 80 for 16-component profiles). */
  lemma NearestFirst(n: nat, a: string, b: string, c: string)
    requires n > 0
    ensures SimilarFeedback(Constant(n, 0), Table(n, a, b, c)) == a + " " + b + " " + c
  {
    TableSelection(n, a, b, c);
    JoinThree(a, b, c, " ");
  }

  lemma JoinThree(a: string, b: string, c: string, sep: string)
    ensures Join([a, b, c], sep) == a + sep + b + sep + c
  {
    assert [a, b, c][1..] == [b, c];
    assert [b, c][1..] == [c];
    assert Join([c], sep) == c;
    assert Join([b, c], sep) == b + sep + c;
    assert Join([a, b, c], sep) == a + sep + (b + sep + c);
  }

  /** Four cases at the same distance: the first three rows of the table are retrieved, in
      table order. */
  lemma TiesKeepTableOrder(p: seq<int>)
    ensures var cases := [Case(p, "a"), Case(p, "b"), Case(p, "c"), Case(p, "d")];
            SimilarFeedbacks(p, cases, Neighbours) == ["a", "b", "c"]
  {
    var cases := [Case(p, "a"), Case(p, "b"), Case(p, "c"), Case(p, "d")];
    DistanceSelf(p);
    assert Distances(p, cases) == [0, 0, 0, 0];
    TiesSelected(0);
    SimilarFeedbacksOfSelection(p, cases, Neighbours, [0, 1, 2]);
  }

  /** Four rows at the same distance: the first three are selected, in table order. */
  lemma TiesSelected(x: int)
    ensures IsSelection([x, x, x, x], Neighbours, [0, 1, 2])
  {
    var d := [x, x, x, x];
    assert Ranked(d, [0, 1, 2]);
  }

  /** A non-empty profile written as the input field asks for it, but with other than 16
      integers of at most `MaxStrDigits` digits, is turned away with the missing-fields
      message and no conversion error. */
  lemma FormattedWrongLengthRejected(v: seq<int>, question: string, answer: string,
                                     cases: seq<Case>)
    requires |v| > 0 && |v| != ProfileLength
    requires forall i :: 0 <= i < |v| ==> WithinDigitLimit(v[i])
    ensures HandleRequest(true, question, answer, FormatProfile(v), cases) == Rejected(false)
  {
    ParseFormatProfile(v);
  }

  /** A profile written as the input field asks for it, with 16 integers of at most
      `MaxStrDigits` digits, reaches the lookup whenever the question and answer are filled
      in and the `distance` column is numeric; otherwise the lookup stops with an uncaught
      exception. */
  lemma FormattedProfileProceeds(v: seq<int>, question: string, answer: string,
                                 cases: seq<Case>)
    requires |v| == ProfileLength && question != "" && answer != ""
    requires forall i :: 0 <= i < |v| ==> WithinDigitLimit(v[i])
    ensures HandleRequest(true, question, answer, FormatProfile(v), cases)
            == if NumericColumn(Distances(v, cases)) then Proceed(v, SimilarFeedback(v, cases))
               else NotNumeric
  {
    ParseFormatProfile(v);
  }

  /** A profile with a piece that has a character other than whitespace, a sign or a digit
      reports the conversion error (for instance `[1,x]`); the run then ends with the
      missing-fields message, or, when the button is pressed with a question and an answer,
      stops at the unassigned profile. */
  lemma StrayCharacterRejected(pressed: bool, question: string, answer: string, text: string,
                               cases: seq<Case>, p: nat, j: nat)
    requires p < |Pieces(text)| && j < |Pieces(text)[p]|
    requires var ch := Pieces(text)[p][j];
             ch !in Whitespace && ch != '+' && ch != '-' && !IsDigit(ch)
    ensures HandleRequest(pressed, question, answer, text, cases)
            == if pressed && question != "" && answer != "" then Unassigned(true) else Rejected(true)
  {
    ParseIntRejectsStray(Pieces(text)[p], j);
  }

  /** A piece with more than `MaxStrDigits` digits reports the conversion error, like a
      stray character. */
  lemma LongLiteralRejected(pressed: bool, question: string, answer: string, text: string,
                            cases: seq<Case>, p: nat,
                            ws1: string, sign: string, ds: string, ws2: string)
    requires p < |Pieces(text)| && Pieces(text)[p] == ws1 + (sign + ds) + ws2
    requires IsLiteralShape(ws1, sign, ds, ws2) && |ds| > MaxStrDigits
    ensures HandleRequest(pressed, question, answer, text, cases)
            == if pressed && question != "" && answer != "" then Unassigned(true) else Rejected(true)
  {
    ParseIntRejectsLong(ws1, sign, ds, ws2);
  }

  /** Pressing the button with a question and an answer but no profile stops at the
      unassigned profile, without the conversion error. */
  lemma EmptyProfileUnassigned(question: string, answer: string, cases: seq<Case>)
    requires question != "" && answer != ""
    ensures HandleRequest(true, question, answer, "", cases) == Unassigned(false)
  {
  }

  /** A stored profile far enough from a well-formed 16-component query makes the lookup
      stop with an uncaught exception. */
  lemma LargeDistanceOverflows(v: seq<int>, question: string, answer: string,
                               cases: seq<Case>, i: nat)
    requires |v| == ProfileLength && question != "" && answer != ""
    requires forall j :: 0 <= j < |v| ==> WithinDigitLimit(v[j])
    requires i < |cases| && Distance(v, cases[i].profile) > ColumnMax
    ensures HandleRequest(true, question, answer, FormatProfile(v), cases) == NotNumeric
  {
    ParseFormatProfile(v);
    assert Distances(v, cases)[i] > ColumnMax;
  }

  /** With an empty case table a well-formed 16-component query never reaches the lookup's
      result: the run stops at `nsmallest`'s `TypeError`. */
  lemma EmptyTableNotNumeric(v: seq<int>, question: string, answer: string)
    requires |v| == ProfileLength && question != "" && answer != ""
    requires forall j :: 0 <= j < |v| ==> WithinDigitLimit(v[j])
    ensures HandleRequest(true, question, answer, FormatProfile(v), []) == NotNumeric
  {
    ParseFormatProfile(v);
  }
}
