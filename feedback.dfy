/** The profile-similarity lookup of meta.py:78-93: the case table with its `distance`
    column, the feedback of the three nearest cases joined with spaces, and the gate that
    decides whether a request reaches the lookup at all. */
module Feedback {
  import opened Numbers
  import opened Text
  import opened ProfileParse
  import opened ProfileDistance
  import opened Selection

  /** One row of the case table: a stored profile (already parsed) and its feedback text. */
  datatype Case = Case(profile: seq<int>, feedback: string)

  /** How many similar cases the lookup retrieves (`nsmallest(3, ...)`). */
  const Neighbours: nat := 3

  /** How many components a profile must have before the lookup runs. */
  const ProfileLength: nat := 16

  /** The largest value a numeric pandas column of integers holds (`uint64`). A larger value
      makes the lookup fail: `apply` either keeps the column as Python objects, which
      `nsmallest` refuses, or raises while converting it. */
  const ColumnMax: int := 0xFFFF_FFFF_FFFF_FFFF

  /** pandas gives the `distance` column a numeric dtype, so the lookup goes through: the
      table has a row, and every distance fits `uint64`. On an empty table `apply` keeps the
      object dtype of the stored-profile column. */
  predicate NumericColumn(d: seq<int>) {
    |d| > 0 && forall i :: 0 <= i < |d| ==> d[i] <= ColumnMax
  }

  /** The `distance` column for `query`: one entry per row, in table order. */
  function Distances(query: seq<int>, cases: seq<Case>): (d: seq<int>)
    ensures |d| == |cases|
    ensures forall i :: 0 <= i < |cases| ==> d[i] == Distance(query, cases[i].profile)
  {
    if cases == [] then [] else [Distance(query, cases[0].profile)] + Distances(query, cases[1..])
  }

  /** `['metacognitive_feedback'].tolist()` of the given rows, in the given order. */
  function FeedbackOf(cases: seq<Case>, rows: seq<nat>): (fbs: seq<string>)
    requires forall t :: 0 <= t < |rows| ==> rows[t] < |cases|
    ensures |fbs| == |rows|
    ensures forall t :: 0 <= t < |rows| ==> fbs[t] == cases[rows[t]].feedback
  {
    if rows == [] then [] else [cases[rows[0]].feedback] + FeedbackOf(cases, rows[1..])
  }

  /** meta.py:92: the feedback texts of the `k` cases nearest to `query`. */
  function SimilarFeedbacks(query: seq<int>, cases: seq<Case>, k: nat): (fbs: seq<string>)
    ensures |fbs| == Min(k, |cases|)
  {
    FeedbackOf(cases, NSmallest(Distances(query, cases), k))
  }

  /** meta.py:92-93: the three nearest feedback texts joined with single spaces. */
  function SimilarFeedback(query: seq<int>, cases: seq<Case>): string {
    Join(SimilarFeedbacks(query, cases, Neighbours), " ")
  }

  /** The feedbacks retrieved are those of any choice of rows that has the properties of
      `nsmallest` (right length, non-decreasing distance, earlier row first on ties, nearer
      than or tied-and-earlier than every row left out): there is exactly one such choice. */
  lemma SimilarFeedbacksOfSelection(query: seq<int>, cases: seq<Case>, k: nat, rows: seq<nat>)
    requires IsSelection(Distances(query, cases), k, rows)
    ensures SimilarFeedbacks(query, cases, k) == FeedbackOf(cases, rows)
  {
    SelectionUnique(Distances(query, cases), k, rows);
  }

  /** The joined text is the (at most three) retrieved feedbacks with one space between
      consecutive ones and none before the first or after the last. */
  lemma SimilarFeedbackShape(query: seq<int>, cases: seq<Case>)
    ensures var f := SimilarFeedbacks(query, cases, Neighbours);
            && (|cases| == 0 ==> SimilarFeedback(query, cases) == "")
            && (|cases| == 1 ==> SimilarFeedback(query, cases) == f[0])
            && (|cases| == 2 ==> SimilarFeedback(query, cases) == f[0] + " " + f[1])
            && (|cases| >= 3 ==> SimilarFeedback(query, cases) == f[0] + " " + f[1] + " " + f[2])
  {
    var f := SimilarFeedbacks(query, cases, Neighbours);
    if |cases| == 2 {
      JoinSnoc([f[0]], f[1], " ");
      assert f == [f[0]] + [f[1]];
    } else if |cases| >= 3 {
      JoinSnoc([f[0]], f[1], " ");
      JoinSnoc([f[0], f[1]], f[2], " ");
      assert [f[0]] + [f[1]] == [f[0], f[1]];
      assert f == [f[0], f[1]] + [f[2]];
    }
  }

  /** The in-memory case table `feedback_df` (meta.py:23), whose `distance` column the lookup
      writes (meta.py:89). The rows themselves are never changed. */
  class FeedbackFrame {
    const cases: seq<Case>
    /** The `distance` column; empty until a lookup has computed it. */
    var distance: array<int>

    constructor (cases: seq<Case>)
      ensures this.cases == cases && distance.Length == 0
    {
      this.cases := cases;
      distance := new int[0];
    }

    /** meta.py:89-91: assigns a new `distance` column holding, for every row, the distance
        between `query` and the row's stored profile. */
    method ComputeDistances(query: seq<int>)
      modifies this
      ensures fresh(distance)
      ensures distance[..] == Distances(query, cases)
    {
      var column := new int[|cases|];
      for i := 0 to |cases|
        invariant forall j :: 0 <= j < i ==> column[j] == Distance(query, cases[j].profile)
      {
        column[i] := Distance(query, cases[i].profile);
      }
      distance := column;
    }

    /** meta.py:89-93: computes the `distance` column, then joins the feedback of the three
        nearest rows. `None` when the table is empty or some distance is too large for a
        numeric column: the lookup then stops with an uncaught exception (`OverflowError` at
        meta.py:89 or `TypeError` at meta.py:92). */
    method Lookup(query: seq<int>) returns (similar: Option<string>)
      modifies this
      ensures fresh(distance) && distance[..] == Distances(query, cases)
      ensures similar.None? <==> distance.Length == 0
                                 || exists i :: 0 <= i < distance.Length && distance[i] > ColumnMax
      ensures similar.Some? ==> similar.value == SimilarFeedback(query, cases)
    {
      ComputeDistances(query);
      if !NumericColumn(distance[..]) {
        return None;
      }
      var rows := NSmallest(distance[..], Neighbours);
      similar := Some(Join(FeedbackOf(cases, rows), " "));
    }
  }

  /** What a run of the script does with one request. */
  datatype Outcome =
      /** The lookup ran on `profile`; the agent is invoked with `similarFeedback`. */
    | Proceed(profile: seq<int>, similarFeedback: string)
      /** "Please enter all required fields." (meta.py:116); `invalidProfile` tells whether the
          `ValueError` message of meta.py:82 was shown as well. */
    | Rejected(invalidProfile: bool)
      /** The condition of meta.py:85 reads `profile_vector`, which was never assigned: the run
          stops with `NameError`, after meta.py:82's message when `invalidProfile`. */
    | Unassigned(invalidProfile: bool)
      /** The `distance` column is not numeric (the table is empty, or some distance is too
          large for `uint64`): the lookup stops with an uncaught exception, `OverflowError` at
          meta.py:89 or `TypeError` at meta.py:92. */
    | NotNumeric

  /** meta.py:78-93 for one run of the script: `pressed` is the button, `profileText` the raw
      profile field. The profile is parsed only when the field is non-empty. The condition of
      meta.py:85 is evaluated left to right and stops at the first false operand; it reads
      the parsed profile only when the button is pressed and the question and the answer are
      non-empty. The lookup runs only when the profile then has exactly 16 components. */
  function HandleRequest(pressed: bool, question: string, answer: string, profileText: string,
                         cases: seq<Case>): (o: Outcome)
    ensures o.Proceed? <==> pressed && question != "" && answer != "" && profileText != ""
                            && ParseProfile(profileText).Vector?
                            && |ParseProfile(profileText).values| == ProfileLength
                            && NumericColumn(Distances(ParseProfile(profileText).values, cases))
    ensures o.Proceed? ==> o.profile == ParseProfile(profileText).values
                           && o.similarFeedback == SimilarFeedback(o.profile, cases)
    ensures o.Rejected? ==> (o.invalidProfile <==> profileText != "" && ParseProfile(profileText).Invalid?)
    ensures o.Unassigned? <==> pressed && question != "" && answer != ""
                               && (profileText == "" || ParseProfile(profileText).Invalid?)
    ensures o.Unassigned? ==> (o.invalidProfile <==> profileText != "")
    ensures o.NotNumeric? <==> pressed && question != "" && answer != "" && profileText != ""
                               && ParseProfile(profileText).Vector?
                               && |ParseProfile(profileText).values| == ProfileLength
                               && !NumericColumn(Distances(ParseProfile(profileText).values, cases))
  {
    var invalid := profileText != "" && ParseProfile(profileText).Invalid?;
    if !(pressed && question != "" && answer != "") then Rejected(invalid)
    else if profileText == "" || invalid then Unassigned(invalid)
    else
      var values := ParseProfile(profileText).values;
      if |values| != ProfileLength then Rejected(false)
      else if !NumericColumn(Distances(values, cases)) then NotNumeric
      else Proceed(values, SimilarFeedback(values, cases))
  }

  /** A profile that parses to anything but 16 integers never reaches the lookup: the run ends
      with the missing-fields message and no conversion error. */
  lemma WrongLengthRejected(pressed: bool, question: string, answer: string, profileText: string,
                            cases: seq<Case>)
    requires ParseProfile(profileText).Vector?
    requires |ParseProfile(profileText).values| != ProfileLength
    ensures HandleRequest(pressed, question, answer, profileText, cases) == Rejected(false)
  {
  }

  /** One run of meta.py:78-93 against the case table `frame`: the gate, then `Lookup` on the
      parsed profile. It has the outcome `HandleRequest` describes. */
  method Run(frame: FeedbackFrame, pressed: bool, question: string, answer: string,
             profileText: string) returns (o: Outcome)
    modifies frame
    ensures o == HandleRequest(pressed, question, answer, profileText, frame.cases)
  {
    var invalid := profileText != "" && ParseProfile(profileText).Invalid?;
    if !(pressed && question != "" && answer != "") {
      return Rejected(invalid);
    }
    if profileText == "" || invalid {
      return Unassigned(invalid);
    }
    var values := ParseProfile(profileText).values;
    if |values| != ProfileLength {
      return Rejected(false);
    }
    var similar := frame.Lookup(values);
    if similar.None? {
      o := NotNumeric;
    } else {
      o := Proceed(values, similar.value);
    }
  }
}
