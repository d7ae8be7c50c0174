/** The .NET string operations the generator relies on: `string.Join`, a
    splitter that inverts it, substring containment, the
    invariant-culture case-insensitive comparison (folded to ASCII) and LINQ's `Distinct`. */
module Text {

  /** `string.Join(sep, xs)`: the elements in order, separated by `sep`. */
  function Join(sep: string, xs: seq<string>): string {
    if xs == [] then ""
    else if |xs| == 1 then xs[0]
    else xs[0] + sep + Join(sep, xs[1..])
  }

  /** Position of the first occurrence of `x` in `xs`. */
  function FirstOccurrence<T(==)>(xs: seq<T>, x: T): (i: nat)
    requires x in xs
    ensures i < |xs| && xs[i] == x
    ensures forall j :: 0 <= j < i ==> xs[j] != x
  {
    if xs[0] == x then 0 else 1 + FirstOccurrence(xs[1..], x)
  }

  /** Cuts `s` into pieces at every occurrence of the first character of
      `sep`, dropping `|sep|` characters each time: the inverse of `Join` for
      elements that do not contain that character (see JoinSplit). */
  function Split(s: string, sep: string): (r: seq<string>)
    requires sep != []
    ensures |r| >= 1
    decreases |s|
  {
    if sep[0] !in s then [s]
    else
      var i := FirstOccurrence(s, sep[0]);
      var next := if i + |sep| <= |s| then i + |sep| else |s|;
      [s[..i]] + Split(s[next..], sep)
  }

  /** Splitting a joined text gives back the joined elements, provided none
      of them contains the separator's first character. */
  lemma {:induction false} JoinSplit(sep: string, xs: seq<string>)
    requires sep != [] && xs != []
    requires forall k :: 0 <= k < |xs| ==> sep[0] !in xs[k]
    ensures Split(Join(sep, xs), sep) == xs
  {
    if |xs| > 1 {
      var head, tail := xs[0], xs[1..];
      var rest := Join(sep, tail);
      var s := head + sep + rest;
      assert s[|head|] == sep[0];
      forall j | 0 <= j < |head| ensures s[j] != sep[0] {
        assert s[j] == head[j];
      }
      var i := FirstOccurrence(s, sep[0]);
      assert i == |head|;
      assert s[..i] == head;
      assert s[i + |sep|..] == rest;
      assert forall k :: 0 <= k < |tail| ==> tail[k] == xs[k + 1];
      JoinSplit(sep, tail);
      assert [head] + tail == xs;
    }
  }

  lemma AppendAssociative<T>(x: seq<T>, y: seq<T>, z: seq<T>)
    ensures x + y + z == x + (y + z)
  {
  }

  /** `sub` occurs in `s` starting at position `k`. */
  predicate OccursAt(s: string, sub: string, k: int) {
    0 <= k <= |s| - |sub| && s[k..k + |sub|] == sub
  }

  /** `sub` occurs somewhere in `s`. */
  predicate Contains(s: string, sub: string) {
    exists k :: 0 <= k <= |s| && OccursAt(s, sub, k)
  }

  lemma ContainsInside(s: string, before: string, sub: string, after: string)
    requires s == before + sub + after
    ensures Contains(s, sub)
  {
    assert OccursAt(s, sub, |before|);
  }

  lemma ContainsTransitive(s: string, mid: string, sub: string)
    requires Contains(s, mid) && Contains(mid, sub)
    ensures Contains(s, sub)
  {
    var k :| 0 <= k <= |s| && OccursAt(s, mid, k);
    var m :| 0 <= m <= |mid| && OccursAt(mid, sub, m);
    assert s[k..k + |mid|] == mid && mid[m..m + |sub|] == sub;
    forall t | 0 <= t < |sub| ensures s[k + m + t] == sub[t] {
      assert sub[t] == mid[m + t] == s[k..k + |mid|][m + t];
    }
    assert s[k + m..k + m + |sub|] == sub;
    assert OccursAt(s, sub, k + m);
  }

  /** Text that occurs in a string still occurs after more is appended. */
  lemma ContainsAppend(a: string, b: string, sub: string)
    requires Contains(a, sub)
    ensures Contains(a + b, sub)
  {
    var k :| 0 <= k <= |a| && OccursAt(a, sub, k);
    assert (a + b)[k..k + |sub|] == a[k..k + |sub|];
    assert OccursAt(a + b, sub, k);
  }

  /** The last piece of a concatenation occurs in it. */
  lemma ContainsLast(a: string, b: string)
    ensures Contains(a + b, b)
  {
    assert (a + b)[|a|..|a| + |b|] == b;
    assert OccursAt(a + b, b, |a|);
  }

  /** A text of nine pieces holds each of its odd-numbered pieces (the
      substitutions of a template whose literal parts are the even ones). */
  lemma ContainsOddPieces9(p0: string, p1: string, p2: string, p3: string, p4: string,
                           p5: string, p6: string, p7: string, p8: string)
    ensures var s := p0 + p1 + p2 + p3 + p4 + p5 + p6 + p7 + p8;
      Contains(s, p1) && Contains(s, p3) && Contains(s, p5) && Contains(s, p7)
  {
    var x1 := p0 + p1;
    var x3 := x1 + p2 + p3;
    var x5 := x3 + p4 + p5;
    var x7 := x5 + p6 + p7;
    ContainsLast(p0, p1);
    ContainsLast(x1 + p2, p3);
    ContainsLast(x3 + p4, p5);
    ContainsLast(x5 + p6, p7);
    ContainsAppend(x1, p2, p1);
    ContainsAppend(x1 + p2, p3, p1);
    ContainsAppend(x3, p4, p1);
    ContainsAppend(x3, p4, p3);
    ContainsAppend(x3 + p4, p5, p1);
    ContainsAppend(x3 + p4, p5, p3);
    forall sub | sub in {p1, p3, p5} ensures Contains(x5 + p6, sub) && Contains(x7, sub) {
      ContainsAppend(x5, p6, sub);
      ContainsAppend(x5 + p6, p7, sub);
    }
    forall sub | sub in {p1, p3, p5, p7} ensures Contains(x7 + p8, sub) {
      ContainsAppend(x7, p8, sub);
    }
  }

  /** A text of seven pieces holds each of its odd-numbered pieces. */
  lemma ContainsOddPieces7(p0: string, p1: string, p2: string, p3: string, p4: string,
                           p5: string, p6: string)
    ensures var s := p0 + p1 + p2 + p3 + p4 + p5 + p6;
      Contains(s, p1) && Contains(s, p3) && Contains(s, p5)
  {
    var x1 := p0 + p1;
    var x3 := x1 + p2 + p3;
    var x5 := x3 + p4 + p5;
    ContainsLast(p0, p1);
    ContainsLast(x1 + p2, p3);
    ContainsLast(x3 + p4, p5);
    ContainsAppend(x1, p2, p1);
    ContainsAppend(x1 + p2, p3, p1);
    ContainsAppend(x3, p4, p1);
    ContainsAppend(x3, p4, p3);
    ContainsAppend(x3 + p4, p5, p1);
    ContainsAppend(x3 + p4, p5, p3);
    forall sub | sub in {p1, p3, p5} ensures Contains(x5 + p6, sub) {
      ContainsAppend(x5, p6, sub);
    }
  }

  /** Empty substitutions add nothing to a text of seven pieces. */
  lemma DropEmptyPieces7(p0: string, p1: string, p2: string, p3: string, p4: string,
                         p5: string, p6: string)
    requires p1 == "" && p5 == ""
    ensures p0 + p1 + p2 + p3 + p4 + p5 + p6 == p0 + p2 + p3 + p4 + p6
  {
    assert p0 + p1 == p0;
    assert p0 + p1 + p2 + p3 + p4 + p5 == p0 + p2 + p3 + p4;
  }

  /** Every element of a joined list occurs in the joined text. */
  lemma {:induction false} JoinContainsEach(sep: string, xs: seq<string>, i: nat)
    requires i < |xs|
    ensures Contains(Join(sep, xs), xs[i])
  {
    if |xs| == 1 {
      ContainsInside(xs[0], "", xs[0], "");
    } else if i == 0 {
      ContainsInside(Join(sep, xs), "", xs[0], sep + Join(sep, xs[1..]));
    } else {
      var rest := Join(sep, xs[1..]);
      JoinContainsEach(sep, xs[1..], i - 1);
      ContainsInside(Join(sep, xs), xs[0] + sep, rest, "");
      ContainsTransitive(Join(sep, xs), rest, xs[i]);
    }
  }

  /** ASCII case folding: the model of the invariant culture's folding. */
  function ToLower(c: char): char {
    if 'A' <= c <= 'Z' then (c as int + 32) as char else c
  }

  function Lower(s: string): (r: string)
    ensures |r| == |s| && forall i :: 0 <= i < |s| ==> r[i] == ToLower(s[i])
  {
    seq(|s|, i requires 0 <= i < |s| => ToLower(s[i]))
  }

  /** `a.Equals(b, StringComparison.InvariantCultureIgnoreCase)`, folded to ASCII. */
  predicate EqualsIgnoreCase(a: string, b: string) {
    |a| == |b| && forall i :: 0 <= i < |a| ==> ToLower(a[i]) == ToLower(b[i])
  }

  /** The comparison is equality of the lower-cased strings. */
  lemma EqualsIgnoreCaseIffLowerEqual(a: string, b: string)
    ensures EqualsIgnoreCase(a, b) <==> Lower(a) == Lower(b)
  {
    if Lower(a) == Lower(b) {
      assert |a| == |Lower(a)|;
      forall i | 0 <= i < |a| ensures ToLower(a[i]) == ToLower(b[i]) {
        assert Lower(a)[i] == Lower(b)[i];
      }
    }
  }

  /** LINQ's `Distinct`: each element once, at its first occurrence. It
      walks the list keeping the set of elements already yielded. */
  function Distinct<T(==)>(xs: seq<T>): (r: seq<T>) {
    DistinctAfter(xs, {})
  }

  function DistinctAfter<T(==)>(xs: seq<T>, seen: set<T>): (r: seq<T>) {
    if xs == [] then []
    else if xs[0] in seen then DistinctAfter(xs[1..], seen)
    else [xs[0]] + DistinctAfter(xs[1..], seen + {xs[0]})
  }

  lemma InHeadOrTail<T(!new)>(xs: seq<T>, rest: seq<T>, x: T)
    requires xs != [] && rest == xs[1..]
    ensures x in xs <==> x == xs[0] || x in rest
  {
    assert xs == [xs[0]] + rest;
  }

  lemma FirstOccurrenceInTail<T(!new)>(xs: seq<T>, rest: seq<T>, x: T)
    requires xs != [] && rest == xs[1..] && x in rest && x != xs[0]
    ensures x in xs && FirstOccurrence(xs, x) == 1 + FirstOccurrence(rest, x)
  {
    InHeadOrTail(xs, rest, x);
  }

  /** `DistinctAfter` yields the elements not yet seen. */
  lemma {:induction false} DistinctAfterMembers<T(!new)>(xs: seq<T>, seen: set<T>)
    ensures forall x :: x in DistinctAfter(xs, seen) <==> x in xs && x !in seen
  {
    if xs != [] {
      var rest := xs[1..];
      var seen' := if xs[0] in seen then seen else seen + {xs[0]};
      DistinctAfterMembers(rest, seen');
      forall x ensures x in DistinctAfter(xs, seen) <==> x in xs && x !in seen {
        InHeadOrTail(xs, rest, x);
      }
    }
  }

  /** What `DistinctAfter` yields: the elements not yet seen, ordered by
      where they first occur. */
  lemma {:induction false} DistinctAfterSpec<T(!new)>(xs: seq<T>, seen: set<T>)
    ensures forall x :: x in DistinctAfter(xs, seen) <==> x in xs && x !in seen
    ensures forall i, j :: 0 <= i < j < |DistinctAfter(xs, seen)| ==>
      FirstOccurrence(xs, DistinctAfter(xs, seen)[i]) < FirstOccurrence(xs, DistinctAfter(xs, seen)[j])
  {
    if xs != [] {
      var r := DistinctAfter(xs, seen);
      var rest := xs[1..];
      var seen' := if xs[0] in seen then seen else seen + {xs[0]};
      var tail := DistinctAfter(rest, seen');
      DistinctAfterSpec(rest, seen');
      assert r == if xs[0] in seen then tail else [xs[0]] + tail;
      DistinctAfterMembers(xs, seen);
      forall i, j | 0 <= i < j < |r| ensures FirstOccurrence(xs, r[i]) < FirstOccurrence(xs, r[j]) {
        var k := if xs[0] in seen then j else j - 1;
        assert r[j] == tail[k] && tail[k] in tail;
        FirstOccurrenceInTail(xs, rest, r[j]);
        if xs[0] in seen || i > 0 {
          assert r[i] == tail[i - (j - k)] && tail[i - (j - k)] in tail;
          FirstOccurrenceInTail(xs, rest, r[i]);
        }
      }
    }
  }

  /** `Distinct` keeps exactly the elements of its input, each once, in the
      order of their first occurrences. */
  lemma DistinctSpec<T(!new)>(xs: seq<T>)
    ensures forall x :: x in Distinct(xs) <==> x in xs
    ensures forall i, j :: 0 <= i < j < |Distinct(xs)| ==> Distinct(xs)[i] != Distinct(xs)[j]
    ensures forall i, j :: 0 <= i < j < |Distinct(xs)| ==>
      FirstOccurrence(xs, Distinct(xs)[i]) < FirstOccurrence(xs, Distinct(xs)[j])
    ensures Distinct(xs) == [] <==> xs == []
  {
    DistinctAfterSpec(xs, {});
    forall i, j | 0 <= i < j < |Distinct(xs)| ensures Distinct(xs)[i] != Distinct(xs)[j] {
    }
    if xs != [] {
      assert xs[0] in Distinct(xs);
    }
  }
}
