/** Iterating over the matches of a pattern in a text, and replacing them: leftmost first,
    never overlapping. The pattern is a matcher that says how many characters it takes at
    the start of a text, if any. */
module Substitution {
  import opened Results

  type Matcher = m: string -> Option<nat> | forall t :: m(t).Some? ==> 0 < m(t).value <= |t|
    witness (t: string) => None

  datatype Span = Span(start: nat, end: nat)

  /** The matches in t, as half-open intervals of positions counted from `at`. */
  function FindAll(m: Matcher, t: string, at: nat): seq<Span>
    decreases |t|
  {
    if t == [] then []
    else match m(t)
      case None => FindAll(m, t[1..], at + 1)
      case Some(n) => [Span(at, at + n)] + FindAll(m, t[n..], at + n)
  }

  function Replace(m: Matcher, f: string -> string, t: string): string
    decreases |t|
  {
    if t == [] then []
    else match m(t)
      case None => [t[0]] + Replace(m, f, t[1..])
      case Some(n) => f(t[..n]) + Replace(m, f, t[n..])
  }

  /** Spans in increasing order and disjoint, from position `at` up to position `end`. */
  predicate InOrder(at: nat, end: nat, spans: seq<Span>)
    decreases |spans|
  {
    if spans == [] then at <= end
    else at <= spans[0].start < spans[0].end && InOrder(spans[0].end, end, spans[1..])
  }

  lemma {:induction false} SpansFit(at: nat, end: nat, spans: seq<Span>)
    requires InOrder(at, end, spans)
    ensures at <= end && (spans != [] ==> spans[0].end <= end)
    decreases |spans|
  {
    if spans != [] {
      SpansFit(spans[0].end, end, spans[1..]);
    }
  }

  /** t, whose first character is at position `at`, with each span rewritten in place and
      every other character untouched. */
  function Spliced(f: string -> string, t: string, at: nat, spans: seq<Span>): string
    requires InOrder(at, at + |t|, spans)
    decreases |spans|
  {
    SpansFit(at, at + |t|, spans);
    if spans == [] then t
    else
      var lo, hi := spans[0].start - at, spans[0].end - at;
      t[..lo] + f(t[lo..hi]) + Spliced(f, t[hi..], at + hi, spans[1..])
  }

  lemma {:induction false} FindAllInOrder(m: Matcher, t: string, at: nat)
    ensures InOrder(at, at + |t|, FindAll(m, t, at))
    decreases |t|
  {
    if t != [] {
      match m(t)
      case None =>
        FindAllInOrder(m, t[1..], at + 1);
      case Some(n) =>
        FindAllInOrder(m, t[n..], at + n);
        assert FindAll(m, t, at)[1..] == FindAll(m, t[n..], at + n);
    }
  }

  lemma DropTwice(t: string, n: nat, k: nat)
    requires n + k <= |t|
    ensures t[n..][k..] == t[n + k..]
  {
  }

  /** A span of the text that is left after n characters is one of the whole text. */
  lemma SpanOfRest(m: Matcher, t: string, at: nat, n: nat, r: Span)
    requires n <= |t| && at + n <= r.start <= at + |t| && m(t[n..][r.start - (at + n)..]) == Some(r.end - r.start)
    ensures m(t[r.start - at..]) == Some(r.end - r.start)
  {
    DropTwice(t, n, r.start - (at + n));
    assert n + (r.start - (at + n)) == r.start - at;
  }

  lemma {:induction false} FindAllSound(m: Matcher, t: string, at: nat, r: Span)
    requires r in FindAll(m, t, at)
    ensures at <= r.start < r.end <= at + |t| && m(t[r.start - at..]) == Some(r.end - r.start)
    decreases |t|
  {
    match m(t)
    case None =>
      FindAllSound(m, t[1..], at + 1, r);
      SpanOfRest(m, t, at, 1, r);
    case Some(n) =>
      if r in FindAll(m, t[n..], at + n) {
        FindAllSound(m, t[n..], at + n, r);
        SpanOfRest(m, t, at, n, r);
      } else {
        assert r == Span(at, at + n) && t[0..] == t;
      }
  }

  lemma {:induction false} FindAllComplete(m: Matcher, t: string, at: nat, i: nat) returns (r: Span)
    requires i < |t| && m(t[i..]).Some?
    ensures r in FindAll(m, t, at) && r.start <= at + i < r.end
    decreases |t|
  {
    match m(t)
    case None =>
      assert t[0..] == t;
      assert t[1..][i - 1..] == t[i..];
      r := FindAllComplete(m, t[1..], at + 1, i - 1);
    case Some(n) =>
      r := Span(at, at + n);
      if i >= n {
        assert t[n..][i - n..] == t[i..];
        r := FindAllComplete(m, t[n..], at + n, i - n);
      }
  }

  lemma TailSlices(t: string, lo: nat, hi: nat)
    requires 1 <= lo <= hi <= |t|
    ensures t[..lo] == [t[0]] + t[1..][..lo - 1]
    ensures t[lo..hi] == t[1..][lo - 1..hi - 1]
    ensures t[hi..] == t[1..][hi - 1..]
  {
    var u := t[1..];
    assert t[lo..hi] == u[lo - 1..hi - 1] by {
      forall i | 0 <= i < hi - lo ensures t[lo..hi][i] == u[lo - 1..hi - 1][i] {
        assert t[lo + i] == u[lo - 1 + i];
      }
    }
  }

  lemma Reassociated(c: char, x: string, y: string, z: string, cx: string)
    requires cx == [c] + x
    ensures cx + y + z == [c] + (x + y + z)
  {
  }

  lemma SplicedAtFirst(f: string -> string, t: string, at: nat, spans: seq<Span>, lo: nat, hi: nat)
    requires spans != [] && InOrder(at, at + |t|, spans) && spans[0] == Span(at + lo, at + hi)
    ensures lo < hi <= |t| && InOrder(at + hi, at + hi + |t[hi..]|, spans[1..])
    ensures Spliced(f, t, at, spans) == t[..lo] + f(t[lo..hi]) + Spliced(f, t[hi..], at + hi, spans[1..])
  {
    SpansFit(at, at + |t|, spans);
    assert |t[hi..]| == |t| - hi;
  }

  lemma SplicedShiftAt(f: string -> string, t: string, at: nat, spans: seq<Span>, lo: nat, hi: nat,
                       u: string, before: string, mid: string, after: string)
    requires t != [] && u == t[1..] && spans != [] && spans[0] == Span(at + lo, at + hi)
    requires InOrder(at, at + |t|, spans) && InOrder(at + 1, at + |t|, spans) && 1 <= lo < hi <= |t|
    requires before == u[..lo - 1] && mid == u[lo - 1..hi - 1] && after == u[hi - 1..]
    requires t[..lo] == [t[0]] + before && t[lo..hi] == mid && t[hi..] == after
    ensures Spliced(f, t, at, spans) == [t[0]] + Spliced(f, u, at + 1, spans)
  {
    SplicedAtFirst(f, t, at, spans, lo, hi);
    SplicedAtFirst(f, u, at + 1, spans, lo - 1, hi - 1);
    Reassociated(t[0], before, f(mid), Spliced(f, after, at + hi, spans[1..]), t[..lo]);
  }

  lemma SplicedShift(f: string -> string, t: string, at: nat, spans: seq<Span>)
    requires t != [] && InOrder(at + 1, at + |t|, spans)
    ensures InOrder(at, at + |t|, spans)
    ensures Spliced(f, t, at, spans) == [t[0]] + Spliced(f, t[1..], at + 1, spans)
  {
    SpansFit(at + 1, at + |t|, spans);
    if spans != [] {
      var lo, hi := spans[0].start - at, spans[0].end - at;
      TailSlices(t, lo, hi);
      SplicedShiftAt(f, t, at, spans, lo, hi, t[1..], t[1..][..lo - 1], t[lo..hi], t[hi..]);
    }
  }

  lemma SplicedMatch(f: string -> string, t: string, at: nat, n: nat, spans: seq<Span>)
    requires 0 < n <= |t| && InOrder(at + n, at + |t|, spans)
    ensures InOrder(at, at + |t|, [Span(at, at + n)] + spans)
    ensures Spliced(f, t, at, [Span(at, at + n)] + spans) == f(t[..n]) + Spliced(f, t[n..], at + n, spans)
  {
    var all := [Span(at, at + n)] + spans;
    assert all[1..] == spans;
    assert t[0..n] == t[..n];
    assert t[..0] + f(t[..n]) == f(t[..n]);
  }

  /** Replacement rewrites exactly the spans the iteration finds: every other character is
      kept, in order. */
  lemma {:induction false} ReplaceRewritesTheMatches(m: Matcher, f: string -> string, t: string, at: nat,
                                                     spans: seq<Span>)
    requires spans == FindAll(m, t, at)
    ensures InOrder(at, at + |t|, spans)
    ensures Replace(m, f, t) == Spliced(f, t, at, spans)
    decreases |t|
  {
    FindAllInOrder(m, t, at);
    if t == [] {
    } else if m(t).None? {
      FindAllInOrder(m, t[1..], at + 1);
      ReplaceRewritesTheMatches(m, f, t[1..], at + 1, spans);
      SplicedShift(f, t, at, spans);
    } else {
      var n := m(t).value;
      var rest := FindAll(m, t[n..], at + n);
      assert spans == [Span(at, at + n)] + rest;
      ReplaceRewritesTheMatches(m, f, t[n..], at + n, rest);
      SplicedMatch(f, t, at, n, rest);
    }
  }

  /** Where nothing matches, nothing changes. */
  lemma {:induction false} NoMatchNoChange(m: Matcher, f: string -> string, t: string)
    requires forall i :: 0 <= i < |t| ==> m(t[i..]).None?
    ensures Replace(m, f, t) == t
  {
    if t != [] {
      assert t[0..] == t;
      forall i | 0 <= i < |t| - 1 ensures m(t[1..][i..]).None? {
        assert t[1..][i..] == t[i + 1..];
      }
      NoMatchNoChange(m, f, t[1..]);
    }
  }

  lemma {:induction false} OneMatchToTheEnd(m: Matcher, t: string, k: nat, p: nat)
    requires k <= p < |t| && m(t[p..]) == Some(|t| - p)
    requires forall i :: k <= i < p ==> m(t[i..]).None?
    ensures FindAll(m, t[k..], k) == [Span(p, |t|)]
    decreases p - k
  {
    var u := t[k..];
    if k == p {
      assert u[|t| - p..] == [];
    } else {
      assert u[1..] == t[k + 1..];
      OneMatchToTheEnd(m, t, k + 1, p);
    }
  }

  /** A text that starts with a match and has one more, which reaches its end. */
  lemma FirstAndLastMatch(m: Matcher, t: string, n: nat, p: nat)
    requires m(t) == Some(n) && n <= p < |t| && m(t[p..]) == Some(|t| - p)
    requires forall i :: n <= i < p ==> m(t[i..]).None?
    ensures FindAll(m, t, 0) == [Span(0, n), Span(p, |t|)]
  {
    OneMatchToTheEnd(m, t, n, p);
  }
}
