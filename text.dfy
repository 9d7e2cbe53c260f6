/** The three string operations of Python's `str` that the profile lookup uses:
    `strip(chars)`, `split(sep)` with a one-character separator, and `sep.join(items)`. */
module Text {

  /** Every character of `s` belongs to `cs`. */
  predicate AllIn(s: string, cs: set<char>) {
    forall i :: 0 <= i < |s| ==> s[i] in cs
  }

  /** The number of occurrences of `c` in `s`. */
  function Count(s: string, c: char): nat {
    if s == [] then 0 else (if s[0] == c then 1 else 0) + Count(s[1..], c)
  }

  // ---------------------------------------------------------------------------
  // str.strip(chars)
  // ---------------------------------------------------------------------------

  /** Removes the longest prefix of `s` made of characters in `cs`. */
  function StripLeft(s: string, cs: set<char>): (r: string)
    ensures |r| <= |s|
  {
    if s != [] && s[0] in cs then StripLeft(s[1..], cs) else s
  }

  /** Removes the longest suffix of `s` made of characters in `cs`. */
  function StripRight(s: string, cs: set<char>): (r: string)
    ensures |r| <= |s|
  {
    if s != [] && s[|s| - 1] in cs then StripRight(s[..|s| - 1], cs) else s
  }

  /** Python's `s.strip(chars)`: removes every leading and every trailing character that
      belongs to `cs`. */
  function Strip(s: string, cs: set<char>): (r: string)
    ensures |r| <= |s|
    ensures r == [] || (r[0] !in cs && r[|r| - 1] !in cs)
  {
    var l := StripLeft(s, cs);
    StripLeftShape(s, cs);
    StripRightShape(l, cs);
    StripRight(l, cs)
  }

  /** How many characters `Strip` removes from the front of `s`. */
  function StripStart(s: string, cs: set<char>): nat {
    |s| - |StripLeft(s, cs)|
  }

  lemma {:induction false} StripLeftShape(s: string, cs: set<char>)
    ensures var r := StripLeft(s, cs);
            |r| <= |s| && r == s[|s| - |r|..]
            && (forall i :: 0 <= i < |s| - |r| ==> s[i] in cs)
            && (r == [] || r[0] !in cs)
  {
    if s != [] && s[0] in cs {
      StripLeftShape(s[1..], cs);
    }
  }

  lemma {:induction false} StripRightShape(s: string, cs: set<char>)
    ensures var r := StripRight(s, cs);
            |r| <= |s| && r == s[..|r|]
            && (forall i :: |r| <= i < |s| ==> s[i] in cs)
            && (r == [] || r[|r| - 1] !in cs)
  {
    if s != [] && s[|s| - 1] in cs {
      StripRightShape(s[..|s| - 1], cs);
    }
  }

  /** What `Strip` leaves: a slice of `s`, preceded and followed only by characters in `cs`,
      that neither starts nor ends with one of them. */
  lemma StripShape(s: string, cs: set<char>)
    ensures var k := StripStart(s, cs);
            var r := Strip(s, cs);
            && k + |r| <= |s|
            && s == s[..k] + r + s[k + |r|..]
            && AllIn(s[..k], cs)
            && AllIn(s[k + |r|..], cs)
            && (r == [] || (r[0] !in cs && r[|r| - 1] !in cs))
  {
    var l := StripLeft(s, cs);
    var k := StripStart(s, cs);
    var r := Strip(s, cs);
    StripLeftShape(s, cs);
    StripRightShape(l, cs);
    assert l == s[k..];
    assert r == s[k..k + |r|];
    assert s[k + |r|..] == l[|r|..];
    assert AllIn(s[..k], cs) by {
      forall i | 0 <= i < k ensures s[..k][i] in cs {
        assert s[..k][i] == s[i];
      }
    }
    assert AllIn(l[|r|..], cs) by {
      forall i | 0 <= i < |l| - |r| ensures l[|r|..][i] in cs {
        assert l[|r|..][i] == l[|r| + i];
      }
    }
    assert s == s[..k] + s[k..k + |r|] + s[k + |r|..];
  }

  lemma {:induction false} StripLeftPadded(a: string, b: string, cs: set<char>)
    requires AllIn(a, cs)
    requires b == [] || b[0] !in cs
    ensures StripLeft(a + b, cs) == b
  {
    if a != [] {
      assert (a + b)[1..] == a[1..] + b;
      StripLeftPadded(a[1..], b, cs);
    }
  }

  lemma {:induction false} StripRightPadded(b: string, d: string, cs: set<char>)
    requires AllIn(d, cs)
    requires b == [] || b[|b| - 1] !in cs
    ensures StripRight(b + d, cs) == b
  {
    if d != [] {
      assert (b + d)[..|b + d| - 1] == b + d[..|d| - 1];
      StripRightPadded(b, d[..|d| - 1], cs);
    }
  }

  /** `Strip` removes exactly the padding: stripping `a + b + d`, where `a` and `d` consist of
      characters in `cs` and `b` neither starts nor ends with one, gives back `b`. */
  lemma StripPadded(a: string, b: string, d: string, cs: set<char>)
    requires AllIn(a, cs) && AllIn(d, cs)
    requires b == [] || (b[0] !in cs && b[|b| - 1] !in cs)
    ensures Strip(a + b + d, cs) == b
  {
    assert a + b + d == a + (b + d);
    if b == [] {
      assert b + d == d;
      StripLeftPadded(a + d, [], cs);
      assert a + d + [] == a + d;
    } else {
      assert (b + d)[0] == b[0];
      StripLeftPadded(a, b + d, cs);
      StripRightPadded(b, d, cs);
    }
  }

  /** Stripping twice is stripping once. */
  lemma StripIdempotent(s: string, cs: set<char>)
    ensures Strip(Strip(s, cs), cs) == Strip(s, cs)
  {
    var r := Strip(s, cs);
    StripShape(s, cs);
    StripPadded([], r, [], cs);
    assert [] + r + [] == r;
  }

  // ---------------------------------------------------------------------------
  // str.split(sep) and sep.join(items)
  // ---------------------------------------------------------------------------

  /** Python's `s.split(c)` for a one-character separator: the pieces between consecutive
      occurrences of `c`; an empty string gives one empty piece and adjacent separators give
      empty pieces. There is one piece more than there are separators, and no piece contains
      the separator. */
  function Split(s: string, c: char): (r: seq<string>)
    ensures |r| == Count(s, c) + 1
    ensures forall i :: 0 <= i < |r| ==> c !in r[i]
  {
    if s == [] then [""]
    else
      var rest := Split(s[1..], c);
      if s[0] == c then [""] + rest
      else [[s[0]] + rest[0]] + rest[1..]
  }

  /** Python's `sep.join(items)`: the items with `sep` between consecutive ones. */
  function Join(items: seq<string>, sep: string): (r: string)
    ensures |items| == 0 ==> r == ""
    ensures |items| > 0 ==> |r| == TotalLength(items) + (|items| - 1) * |sep|
  {
    if |items| == 0 then ""
    else if |items| == 1 then items[0]
    else items[0] + sep + Join(items[1..], sep)
  }

  /** The sum of the lengths of `items`. */
  function TotalLength(items: seq<string>): nat {
    if items == [] then 0 else |items[0]| + TotalLength(items[1..])
  }

  /** Appending an item to a non-empty list appends the separator and the item: the joined
      text never starts or ends with a separator of its own making. */
  lemma {:induction false} JoinSnoc(items: seq<string>, last: string, sep: string)
    requires |items| > 0
    ensures Join(items + [last], sep) == Join(items, sep) + sep + last
  {
    if |items| == 1 {
      assert items + [last] == [items[0], last];
    } else {
      assert (items + [last])[1..] == items[1..] + [last];
      JoinSnoc(items[1..], last, sep);
    }
  }

  /** Joining the pieces of a split with the separator gives back the original text. */
  lemma {:induction false} JoinSplit(s: string, c: char)
    ensures Join(Split(s, c), [c]) == s
  {
    if s != [] {
      var rest := Split(s[1..], c);
      JoinSplit(s[1..], c);
      if s[0] == c {
        assert ([""] + rest)[1..] == rest;
      } else {
        var r := [[s[0]] + rest[0]] + rest[1..];
        if |rest| > 1 {
          assert r[1..] == rest[1..];
        }
      }
    }
  }

  lemma {:induction false} SplitPiece(a: string, c: char)
    requires c !in a
    ensures Split(a, c) == [a]
  {
    if a != [] {
      SplitPiece(a[1..], c);
      assert [a[0]] + a[1..] == a;
    }
  }

  lemma {:induction false} SplitFirst(a: string, t: string, c: char)
    requires c !in a
    ensures Split(a + [c] + t, c) == [a] + Split(t, c)
  {
    if a == [] {
      assert a + [c] + t == [c] + t;
      assert ([c] + t)[1..] == t;
    } else {
      assert (a + [c] + t)[1..] == a[1..] + [c] + t;
      SplitFirst(a[1..], t, c);
      assert [a[0]] + a[1..] == a;
    }
  }

  /** Splitting a join recovers the items, provided there is at least one item and no item
      contains the separator. */
  lemma {:induction false} SplitJoin(items: seq<string>, c: char)
    requires |items| > 0
    requires forall i :: 0 <= i < |items| ==> c !in items[i]
    ensures Split(Join(items, [c]), c) == items
  {
    if |items| == 1 {
      SplitPiece(items[0], c);
    } else {
      SplitJoin(items[1..], c);
      SplitFirst(items[0], Join(items[1..], [c]), c);
      assert [items[0]] + items[1..] == items;
    }
  }
}
