/** Fencing untrusted text: neutralisation of embedded fence tags and wrapping.

    The pattern is `<\s*\/?\s*name\b[^>]*>` for a list of tag names, ignoring case. White
    space is that of Unicode. Which characters beyond ASCII count as word characters for `\b`
    is left open, and the statements hold for every `Usable` list of names, among them the
    list of the program. */
module PromptFence {
  import opened Results
  import opened Substitution

  const TAG_NAMES: seq<string> := ["external-data", "agent-memory", "knowledge-context"]

  datatype Fence = Fence(names: seq<string>, wide: char -> bool)

  /** Names consist of lower-case letters other than i and s, whose case folds beyond ASCII,
      and inner dashes, and no two start alike. */
  predicate Usable(names: seq<string>) {
    && (forall k :: 0 <= k < |names| ==> UsableName(names[k]))
    && (forall j, k :: 0 <= j < k < |names| ==> names[j] != [] && names[k] != [] && names[j][0] != names[k][0])
  }

  predicate UsableName(name: string) {
    && name != [] && 'a' <= name[0] <= 'z' && 'a' <= name[|name| - 1] <= 'z'
    && (forall i :: 0 <= i < |name| ==> 'a' <= name[i] <= 'z' || name[i] == '-')
    && 'i' !in name && 's' !in name
  }

  lemma TagNamesAreUsable()
    ensures Usable(TAG_NAMES)
  {
    assert UsableName("external-data");
    assert UsableName("agent-memory");
    assert UsableName("knowledge-context");
  }

  predicate IsSpace(c: char) {
    var n := c as int;
    || 0x9 <= n <= 0xD || 0x1C <= n <= 0x20 || n == 0x85 || n == 0xA0 || n == 0x1680
    || 0x2000 <= n <= 0x200A || n == 0x2028 || n == 0x2029 || n == 0x202F || n == 0x205F || n == 0x3000
  }

  predicate IsWord(f: Fence, c: char) {
    'a' <= c <= 'z' || 'A' <= c <= 'Z' || '0' <= c <= '9' || c == '_' || (c as int >= 0x80 && f.wide(c))
  }

  /** Case folding as far as lower-case names without i and s can see it; U+212A is the
      Kelvin sign. */
  function Fold(c: char): char {
    if 'A' <= c <= 'Z' then (c as int + 32) as char
    else if c as int == 0x212A then 'k'
    else c
  }

  predicate SpellsAt(t: string, c: nat, name: string) {
    c + |name| <= |t| && forall i :: 0 <= i < |name| ==> Fold(t[c + i]) == name[i]
  }

  // ----- the pattern, declaratively -----

  predicate SpaceRun(t: string, i: nat, j: nat)
    requires i <= j <= |t|
  {
    forall k :: i <= k < j ==> IsSpace(t[k])
  }

  predicate NameAt(f: Fence, t: string, c: nat, d: nat) {
    exists k :: 0 <= k < |f.names| && d == c + |f.names[k]| && SpellsAt(t, c, f.names[k])
  }

  /** White space up to a, perhaps a slash up to b, white space up to c, a name up to d. */
  ghost predicate HeadShape(f: Fence, t: string, a: nat, b: nat, c: nat, d: nat) {
    && 1 <= a <= b <= c <= d <= |t| && t[0] == '<'
    && SpaceRun(t, 1, a) && (b == a || (b == a + 1 && t[a] == '/')) && SpaceRun(t, b, c)
    && NameAt(f, t, c, d)
  }

  /** The pattern matches exactly the first n characters of t. */
  ghost predicate PatternMatches(f: Fence, t: string, n: nat) {
    exists a: nat, b: nat, c: nat, d: nat :: HeadShape(f, t, a, b, c, d) && d < n <= |t| && !IsWord(f, t[d]) &&
      (forall k :: d <= k < n - 1 ==> t[k] != '>') && t[n - 1] == '>'
  }

  // ----- the scanner -----

  function SkipSpaces(t: string, i: nat): (j: nat)
    requires i <= |t|
    ensures i <= j <= |t| && SpaceRun(t, i, j)
    ensures j < |t| ==> !IsSpace(t[j])
    decreases |t| - i
  {
    if i < |t| && IsSpace(t[i]) then SkipSpaces(t, i + 1) else i
  }

  /** Where a name that starts at position c ends; the names are tried in order. */
  function NameEnd(f: Fence, t: string, c: nat, k: nat): (d: Option<nat>)
    requires k <= |f.names|
    ensures d.Some? ==> c <= d.value <= |t|
    decreases |f.names| - k
  {
    if k == |f.names| then None
    else if SpellsAt(t, c, f.names[k]) then Some(c + |f.names[k]|)
    else NameEnd(f, t, c, k + 1)
  }

  /** Where the optional white space and slash after an opening bracket end. */
  function NameStart(t: string): (c: nat)
    requires t != []
    ensures 1 <= c <= |t|
  {
    var a := SkipSpaces(t, 1);
    SkipSpaces(t, if a < |t| && t[a] == '/' then a + 1 else a)
  }

  /** `\b` after a name, whose last character is a word character. */
  predicate Boundary(f: Fence, t: string, d: nat) {
    d < |t| ==> !IsWord(f, t[d])
  }

  /** The end of `<\s*\/?\s*name\b` at the start of t. */
  function HeadEnd(f: Fence, t: string): (d: Option<nat>)
    ensures d.Some? ==> 0 < d.value <= |t| && t[0] == '<'
  {
    if t == [] || t[0] != '<' then None
    else
      var d := NameEnd(f, t, NameStart(t), 0);
      if d.Some? && Boundary(f, t, d.value) then d else None
  }

  function NextClose(t: string, i: nat): (n: Option<nat>)
    requires i <= |t|
    ensures n.Some? ==> i <= n.value < |t| && t[n.value] == '>' && forall k :: i <= k < n.value ==> t[k] != '>'
    ensures n.None? ==> forall k :: i <= k < |t| ==> t[k] != '>'
    decreases |t| - i
  {
    if i == |t| then None
    else if t[i] == '>' then Some(i)
    else NextClose(t, i + 1)
  }

  /** The length of the match at the start of t. */
  function MatchLen(f: Fence, t: string): (n: Option<nat>)
    ensures n.Some? ==> 0 < n.value <= |t| && t[0] == '<' && t[n.value - 1] == '>'
  {
    match HeadEnd(f, t)
    case None => None
    case Some(d) =>
      match NextClose(t, d)
      case None => None
      case Some(i) => Some(i + 1)
  }

  function Escape(t: string): (r: string)
    ensures forall i :: 0 <= i < |r| ==> r[i] != '<' && r[i] != '>'
    ensures t != [] && t[0] == '<' ==> r != [] && r[0] == '&'
  {
    if t == [] then []
    else (if t[0] == '<' then "&lt;" else if t[0] == '>' then "&gt;" else [t[0]]) + Escape(t[1..])
  }

  function TagMatcher(f: Fence): Matcher {
    (t: string) => MatchLen(f, t)
  }

  lemma MatcherIsScanner(f: Fence, t: string)
    ensures TagMatcher(f)(t) == MatchLen(f, t)
  {
  }

  /** Every match is replaced by its escaped form. */
  function Neutralize(f: Fence, t: string): string {
    Replace(TagMatcher(f), Escape, t)
  }

  function Opening(tag: string): string { "<" + tag + ">" }

  function Closing(tag: string): string { "</" + tag + ">" }

  function WrapFenced(f: Fence, t: string, tag: string): Result<string, string> {
    if tag !in f.names then Err("unknown fence tag")
    else Ok(Opening(tag) + "\n" + Neutralize(f, t) + "\n" + Closing(tag))
  }

  // ----- the escaped form -----

  function ReplaceChar(t: string, c: char, code: string): string {
    if t == [] then [] else (if t[0] == c then code else [t[0]]) + ReplaceChar(t[1..], c, code)
  }

  lemma ReplaceFirst(x: char, t: string, c: char, code: string, first: string)
    requires first == if x == c then code else [x]
    ensures ReplaceChar([x] + t, c, code) == first + ReplaceChar(t, c, code)
  {
    assert ([x] + t)[1..] == t;
  }

  lemma ConcatOfThree(a: string, b: string, c: string)
    ensures a + (b + c) == (a + b) + c
  {
  }

  lemma {:induction false} ReplaceInConcat(a: string, b: string, c: char, code: string)
    ensures ReplaceChar(a + b, c, code) == ReplaceChar(a, c, code) + ReplaceChar(b, c, code)
  {
    if a == [] {
      assert a + b == b;
    } else {
      var x, rest := a[0], a[1..];
      var first := if x == c then code else [x];
      ReplaceInConcat(rest, b, c, code);
      assert a == [x] + rest && a + b == [x] + (rest + b);
      ReplaceFirst(x, rest, c, code, first);
      ReplaceFirst(x, rest + b, c, code, first);
      ConcatOfThree(first, ReplaceChar(rest, c, code), ReplaceChar(b, c, code));
    }
  }

  lemma {:induction false} NothingToReplace(t: string, c: char, code: string)
    requires c !in t
    ensures ReplaceChar(t, c, code) == t
  {
    if t != [] {
      NothingToReplace(t[1..], c, code);
    }
  }

  /** Escaping is the replacement of the one bracket followed by that of the other. */
  lemma {:induction false} EscapeIsTwoReplacements(t: string)
    ensures Escape(t) == ReplaceChar(ReplaceChar(t, '<', "&lt;"), '>', "&gt;")
  {
    if t != [] {
      var first := if t[0] == '<' then "&lt;" else [t[0]];
      EscapeIsTwoReplacements(t[1..]);
      ReplaceInConcat(first, ReplaceChar(t[1..], '<', "&lt;"), '>', "&gt;");
      if t[0] != '>' {
        NothingToReplace(first, '>', "&gt;");
      }
    }
  }

  function Unescape(t: string): string
    decreases |t|
  {
    if t == [] then []
    else if "&lt;" <= t then "<" + Unescape(t[4..])
    else if "&gt;" <= t then ">" + Unescape(t[4..])
    else [t[0]] + Unescape(t[1..])
  }

  /** Escaped text can still be read: undoing the escapes gives back any text in which no
      escape occurred before. */
  lemma {:induction false} EscapeIsReversible(t: string)
    requires '&' !in t
    ensures Unescape(Escape(t)) == t
  {
    if t != [] {
      EscapeIsReversible(t[1..]);
      var rest := Escape(t[1..]);
      if t[0] == '<' {
        assert Escape(t) == "&lt;" + rest && ("&lt;" + rest)[4..] == rest;
      } else if t[0] == '>' {
        assert Escape(t) == "&gt;" + rest && ("&gt;" + rest)[4..] == rest;
        assert ("&gt;" + rest)[1] == 'g';
      } else {
        assert t[0] in t;
        assert Escape(t)[0] != '&' && "&lt;"[0] == '&' && "&gt;"[0] == '&';
        assert Escape(t) == [t[0]] + rest && ([t[0]] + rest)[1..] == rest;
      }
    }
  }

  // ----- the scanner implements the pattern -----

  lemma NameEndIsUnique(f: Fence, t: string, c: nat, d: nat)
    requires Usable(f.names) && NameAt(f, t, c, d)
    ensures NameEnd(f, t, c, 0) == Some(d)
    ensures c < d <= |t| && !IsSpace(t[c]) && t[c] != '/'
    ensures forall i :: c <= i < d ==> t[i] != '<' && t[i] != '>' && t[i] != '&' && t[i] != '\n'
  {
    var k :| 0 <= k < |f.names| && d == c + |f.names[k]| && SpellsAt(t, c, f.names[k]);
    assert UsableName(f.names[k]);
    assert Fold(t[c + 0]) == f.names[k][0];
    forall i | c <= i < d ensures t[i] != '<' && t[i] != '>' && t[i] != '&' && t[i] != '\n' {
      assert Fold(t[c + (i - c)]) == f.names[k][i - c];
    }
    NameEndFinds(f, t, c, k, 0);
  }

  lemma {:induction false} NameEndFinds(f: Fence, t: string, c: nat, k: nat, from: nat)
    requires Usable(f.names) && from <= k < |f.names| && SpellsAt(t, c, f.names[k])
    ensures NameEnd(f, t, c, from) == Some(c + |f.names[k]|)
    decreases k - from
  {
    if from < k {
      assert Fold(t[c + 0]) == f.names[k][0] != f.names[from][0];
      NameEndFinds(f, t, c, k, from + 1);
    }
  }

  lemma {:induction false} NameEndIsName(f: Fence, t: string, c: nat, from: nat)
    requires from <= |f.names| && NameEnd(f, t, c, from).Some?
    ensures NameAt(f, t, c, NameEnd(f, t, c, from).value)
    decreases |f.names| - from
  {
    if !SpellsAt(t, c, f.names[from]) {
      NameEndIsName(f, t, c, from + 1);
    }
  }

  lemma ShapeIsScanned(f: Fence, t: string, a: nat, b: nat, c: nat, d: nat)
    requires Usable(f.names) && HeadShape(f, t, a, b, c, d)
    ensures NameStart(t) == c && NameEnd(f, t, c, 0) == Some(d)
    ensures forall i :: 0 <= i < d ==> t[i] != '>' && t[i] != '&'
  {
    NameEndIsUnique(f, t, c, d);
    if b == a {
      assert SkipSpaces(t, 1) == c;
    } else {
      assert SkipSpaces(t, 1) == a;
    }
  }

  lemma ScanIsShape(f: Fence, t: string) returns (a: nat, b: nat, c: nat, d: nat)
    requires HeadEnd(f, t).Some?
    ensures HeadEnd(f, t) == Some(d) && HeadShape(f, t, a, b, c, d)
  {
    a := SkipSpaces(t, 1);
    b := if a < |t| && t[a] == '/' then a + 1 else a;
    c := NameStart(t);
    d := HeadEnd(f, t).value;
    NameEndIsName(f, t, c, 0);
  }

  lemma MatchIsPattern(f: Fence, t: string, n: nat)
    requires MatchLen(f, t) == Some(n)
    ensures PatternMatches(f, t, n)
  {
    var a, b, c, d := ScanIsShape(f, t);
    assert HeadShape(f, t, a, b, c, d) && d < n;
  }

  lemma PatternIsMatched(f: Fence, t: string, n: nat, a: nat, b: nat, c: nat, d: nat)
    requires Usable(f.names) && HeadShape(f, t, a, b, c, d) && d < n <= |t| && !IsWord(f, t[d])
    requires (forall k :: d <= k < n - 1 ==> t[k] != '>') && t[n - 1] == '>'
    ensures MatchLen(f, t) == Some(n)
  {
    ShapeIsScanned(f, t, a, b, c, d);
    assert NextClose(t, d) == Some(n - 1);
  }

  /** The scanner finds a match of length n exactly where the pattern matches n characters. */
  lemma ScannerMatchesPattern(f: Fence, t: string, n: nat)
    requires Usable(f.names)
    ensures MatchLen(f, t) == Some(n) <==> PatternMatches(f, t, n)
  {
    if MatchLen(f, t) == Some(n) {
      MatchIsPattern(f, t, n);
    }
    if PatternMatches(f, t, n) {
      var a: nat, b: nat, c: nat, d: nat :| HeadShape(f, t, a, b, c, d) && d < n <= |t| && !IsWord(f, t[d]) &&
        (forall k :: d <= k < n - 1 ==> t[k] != '>') && t[n - 1] == '>';
      PatternIsMatched(f, t, n, a, b, c, d);
    }
  }

  // ----- a neutralised text has no tag left -----

  function MatchAt(f: Fence, t: string, i: nat): Option<nat>
    requires i <= |t|
  {
    MatchLen(f, t[i..])
  }

  ghost predicate NoTags(f: Fence, t: string) {
    forall i {:trigger MatchAt(f, t, i)} :: 0 <= i < |t| ==> MatchAt(f, t, i).None?
  }

  /** Nothing that starts before position m can go on past it: the text ends there, or a
      character follows that no head contains, or a line break before an opening bracket. */
  predicate StopsAt(t: string, m: nat) {
    || m == |t|
    || (m < |t| && (t[m] == '<' || t[m] == '&'))
    || (m + 1 < |t| && t[m] == '\n' && t[m + 1] == '<')
  }

  lemma HeadEndsBeforeStop(f: Fence, t: string, a: nat, b: nat, c: nat, d: nat, m: nat)
    requires Usable(f.names) && HeadShape(f, t, a, b, c, d) && 0 < m <= |t| && StopsAt(t, m)
    ensures d <= m
  {
    NameEndIsUnique(f, t, c, d);
  }

  lemma NameTransfers(f: Fence, t: string, t': string, c: nat, d: nat)
    requires NameAt(f, t, c, d) && d <= |t'|
    requires forall i :: c <= i < d <= |t| ==> t[i] == t'[i]
    ensures NameAt(f, t', c, d)
  {
    var k :| 0 <= k < |f.names| && d == c + |f.names[k]| && SpellsAt(t, c, f.names[k]);
    assert SpellsAt(t', c, f.names[k]);
  }

  lemma ShapeTransfers(f: Fence, t: string, t': string, a: nat, b: nat, c: nat, d: nat)
    requires HeadShape(f, t, a, b, c, d) && d <= |t'|
    requires forall i :: 0 <= i < d ==> t[i] == t'[i]
    ensures HeadShape(f, t', a, b, c, d)
  {
    NameTransfers(f, t, t', c, d);
  }

  lemma HeadTransfers(f: Fence, t: string, t': string, m: nat)
    requires Usable(f.names) && 0 < m <= |t| && m <= |t'| && StopsAt(t, m) && StopsAt(t', m)
    requires forall i :: 0 <= i < m ==> t[i] == t'[i]
    requires HeadEnd(f, t).Some?
    ensures HeadEnd(f, t').Some? && HeadEnd(f, t').value == HeadEnd(f, t).value <= m
  {
    var a, b, c, d := ScanIsShape(f, t);
    HeadEndsBeforeStop(f, t, a, b, c, d, m);
    ShapeTransfers(f, t, t', a, b, c, d);
    ShapeIsScanned(f, t', a, b, c, d);
  }

  /** Whether a head starts at the beginning depends only on the text up to such a stop. */
  lemma HeadIsLocal(f: Fence, t: string, t': string, m: nat)
    requires Usable(f.names) && 0 < m <= |t| && m <= |t'| && StopsAt(t, m) && StopsAt(t', m)
    requires forall i :: 0 <= i < m ==> t[i] == t'[i]
    ensures HeadEnd(f, t) == HeadEnd(f, t')
  {
    if HeadEnd(f, t).Some? {
      HeadTransfers(f, t, t', m);
    } else if HeadEnd(f, t').Some? {
      HeadTransfers(f, t', t, m);
    }
  }

  /** Neutralisation keeps the text up to the first match. */
  lemma {:induction false} KeepsUpToFirstMatch(f: Fence, t: string) returns (m: nat)
    ensures m <= |t| && m <= |Neutralize(f, t)|
    ensures forall i :: 0 <= i < m ==> t[i] == Neutralize(f, t)[i]
    ensures StopsAt(t, m) && StopsAt(Neutralize(f, t), m)
    ensures t != [] && MatchLen(f, t).None? ==> m > 0
    decreases |t|
  {
    m := 0;
    if t != [] && MatchLen(f, t).None? {
      m := KeepsUpToFirstMatch(f, t[1..]);
      m := m + 1;
    }
  }

  lemma TaglessTextIsKept(f: Fence, t: string)
    requires NoTags(f, t)
    ensures Neutralize(f, t) == t
  {
    forall i | 0 <= i < |t| ensures TagMatcher(f)(t[i..]).None? {
      assert MatchAt(f, t, i).None?;
    }
    NoMatchNoChange(TagMatcher(f), Escape, t);
  }

  lemma WithoutCloseNothingChanges(f: Fence, t: string)
    requires forall i :: 0 <= i < |t| ==> t[i] != '>'
    ensures Neutralize(f, t) == t
  {
    TaglessTextIsKept(f, t);
  }

  lemma HeadHasNoClose(f: Fence, t: string)
    requires Usable(f.names) && HeadEnd(f, t).Some?
    ensures forall i :: 0 <= i < HeadEnd(f, t).value ==> t[i] != '>'
  {
    var a, b, c, d := ScanIsShape(f, t);
    ShapeIsScanned(f, t, a, b, c, d);
  }

  lemma UnmatchedHeadHasNoClose(f: Fence, t: string)
    requires Usable(f.names) && HeadEnd(f, t).Some? && MatchLen(f, t).None?
    ensures forall i :: 0 <= i < |t| ==> t[i] != '>'
  {
    HeadHasNoClose(f, t);
    assert NextClose(t, HeadEnd(f, t).value).None?;
  }

  lemma UnmatchedStartStaysUnmatched(f: Fence, t: string)
    requires Usable(f.names) && t != [] && MatchLen(f, t).None?
    ensures HeadEnd(f, Neutralize(f, t)) == HeadEnd(f, t)
    ensures MatchLen(f, Neutralize(f, t)).None?
    ensures HeadEnd(f, t).Some? ==> forall i :: 0 <= i < |t| ==> t[i] != '>'
  {
    var m := KeepsUpToFirstMatch(f, t);
    HeadIsLocal(f, t, Neutralize(f, t), m);
    if HeadEnd(f, t).Some? {
      UnmatchedHeadHasNoClose(f, t);
      WithoutCloseNothingChanges(f, t);
    }
  }

  lemma SuffixOfConcat(a: string, b: string, i: nat)
    requires i <= |a| + |b|
    ensures i >= |a| ==> (a + b)[i..] == b[i - |a|..]
    ensures i < |a| ==> (a + b)[i..] != [] && (a + b)[i..][0] == a[i]
  {
  }

  /** The output contains no match of the pattern, at any position. */
  lemma {:induction false} NeutralizedHasNoTags(f: Fence, t: string)
    requires Usable(f.names)
    ensures NoTags(f, Neutralize(f, t))
    decreases |t|
  {
    var r := Neutralize(f, t);
    if t != [] {
      var n := if MatchLen(f, t).Some? then MatchLen(f, t).value else 1;
      var head, tail := if MatchLen(f, t).Some? then Escape(t[..n]) else [t[0]], Neutralize(f, t[n..]);
      NeutralizedHasNoTags(f, t[n..]);
      forall i | 0 <= i < |r| ensures MatchAt(f, r, i).None? {
        SuffixOfConcat(head, tail, i);
        if i >= |head| {
          assert MatchAt(f, tail, i - |head|).None?;
        } else if MatchLen(f, t).None? {
          UnmatchedStartStaysUnmatched(f, t);
          assert r[0..] == r;
        }
      }
    }
  }

  /** Text without tags is left alone; so neutralising twice changes nothing more. */
  lemma NeutralizeIsIdempotent(f: Fence, t: string)
    requires Usable(f.names)
    ensures NoTags(f, t) ==> Neutralize(f, t) == t
    ensures Neutralize(f, Neutralize(f, t)) == Neutralize(f, t)
  {
    if NoTags(f, t) {
      TaglessTextIsKept(f, t);
    }
    NeutralizedHasNoTags(f, t);
    TaglessTextIsKept(f, Neutralize(f, t));
  }

  /** Neutralisation escapes exactly the regions an iteration over the pattern's matches
      yields: every other character is kept, in order. */
  lemma NeutralizeEscapesTheMatches(f: Fence, t: string, spans: seq<Span>)
    requires spans == FindAll(TagMatcher(f), t, 0)
    ensures InOrder(0, |t|, spans)
    ensures Neutralize(f, t) == Spliced(Escape, t, 0, spans)
  {
    ReplaceRewritesTheMatches(TagMatcher(f), Escape, t, 0, spans);
  }

  ghost predicate MatchesTags(f: Fence, m: Matcher) {
    forall u: string, n: nat :: m(u) == Some(n) ==> PatternMatches(f, u, n)
  }

  lemma TagMatcherMatchesTags(f: Fence)
    ensures MatchesTags(f, TagMatcher(f))
  {
    forall u: string, n: nat | TagMatcher(f)(u) == Some(n) ensures PatternMatches(f, u, n) {
      MatchIsPattern(f, u, n);
    }
  }

  lemma RegionIsMatched(f: Fence, m: Matcher, t: string, at: nat, r: Span)
    requires MatchesTags(f, m) && r in FindAll(m, t, at)
    ensures at <= r.start < r.end <= at + |t| && PatternMatches(f, t[r.start - at..], r.end - r.start)
  {
    FindAllSound(m, t, at, r);
  }

  /** The regions are matches of the pattern, and a match that starts anywhere else starts
      inside one of them. */
  lemma RegionIsTag(f: Fence, t: string, at: nat, r: Span)
    requires r in FindAll(TagMatcher(f), t, at)
    ensures at <= r.start < r.end <= at + |t| && PatternMatches(f, t[r.start - at..], r.end - r.start)
  {
    TagMatcherMatchesTags(f);
    RegionIsMatched(f, TagMatcher(f), t, at, r);
  }

  lemma TagIsInRegion(f: Fence, t: string, i: nat, n: nat) returns (r: Span)
    requires Usable(f.names) && i < |t| && PatternMatches(f, t[i..], n)
    ensures r in FindAll(TagMatcher(f), t, 0) && r.start <= i < r.end
  {
    ScannerMatchesPattern(f, t[i..], n);
    r := FindAllComplete(TagMatcher(f), t, 0, i);
  }

  // ----- wrapping -----

  /** Some tag prefix in t is never closed. */
  ghost predicate LeavesOpenTag(f: Fence, t: string) {
    exists i :: 0 <= i < |t| && HeadEnd(f, t[i..]).Some? && '>' !in t[i..]
  }

  function HeadAt(f: Fence, t: string, i: nat): Option<nat>
    requires i <= |t|
  {
    HeadEnd(f, t[i..])
  }

  ghost predicate HasHead(f: Fence, t: string) {
    exists i {:trigger HeadAt(f, t, i)} :: 0 <= i < |t| && HeadAt(f, t, i).Some?
  }

  lemma HasHeadCons(f: Fence, c: char, t: string)
    ensures HasHead(f, [c] + t) <==> HeadEnd(f, [c] + t).Some? || HasHead(f, t)
  {
    var u := [c] + t;
    assert u[0..] == u;
    if HeadEnd(f, u).Some? {
      assert HeadAt(f, u, 0).Some?;
    }
    if i :| 0 <= i < |t| && HeadAt(f, t, i).Some? {
      assert u[i + 1..] == t[i..];
      assert HeadAt(f, u, i + 1).Some?;
    }
    if i :| 0 <= i < |u| && HeadAt(f, u, i).Some? {
      if i > 0 {
        assert u[i..] == t[i - 1..];
        assert HeadAt(f, t, i - 1).Some?;
      }
    }
  }

  lemma {:induction false} HasHeadAfterPlain(f: Fence, plain: string, t: string)
    requires forall i :: 0 <= i < |plain| ==> plain[i] != '<'
    ensures HasHead(f, plain + t) <==> HasHead(f, t)
  {
    if plain == [] {
      assert plain + t == t;
    } else {
      HasHeadAfterPlain(f, plain[1..], t);
      HasHeadCons(f, plain[0], plain[1..] + t);
      assert plain + t == [plain[0]] + (plain[1..] + t);
    }
  }

  lemma OpenTagDrop(f: Fence, t: string, n: nat)
    requires 0 < n <= |t|
    requires t[n - 1] == '>' || (n == 1 && (HeadEnd(f, t).None? || '>' in t))
    ensures LeavesOpenTag(f, t) <==> LeavesOpenTag(f, t[n..])
  {
    var u := t[n..];
    assert t[0..] == t;
    forall i | 0 <= i < n && t[n - 1] == '>' ensures '>' in t[i..] {
      assert t[i..][n - 1 - i] == '>';
    }
    if i :| 0 <= i < |t| && HeadEnd(f, t[i..]).Some? && '>' !in t[i..] {
      assert i >= n && u[i - n..] == t[i..];
    }
    if i :| 0 <= i < |u| && HeadEnd(f, u[i..]).Some? && '>' !in u[i..] {
      assert t[n + i..] == u[i..];
    }
  }

  lemma HeadsAfterMatch(f: Fence, t: string, n: nat)
    requires MatchLen(f, t) == Some(n)
    requires HasHead(f, Neutralize(f, t[n..])) <==> LeavesOpenTag(f, t[n..])
    ensures HasHead(f, Neutralize(f, t)) <==> LeavesOpenTag(f, t)
  {
    HasHeadAfterPlain(f, Escape(t[..n]), Neutralize(f, t[n..]));
    OpenTagDrop(f, t, n);
  }

  lemma HeadsAfterUnmatched(f: Fence, t: string)
    requires Usable(f.names) && t != [] && MatchLen(f, t).None?
    requires HasHead(f, Neutralize(f, t[1..])) <==> LeavesOpenTag(f, t[1..])
    ensures HasHead(f, Neutralize(f, t)) <==> LeavesOpenTag(f, t)
  {
    HasHeadCons(f, t[0], Neutralize(f, t[1..]));
    UnmatchedStartStaysUnmatched(f, t);
    if HeadEnd(f, t).Some? {
      assert t[0..] == t && LeavesOpenTag(f, t);
    } else {
      OpenTagDrop(f, t, 1);
    }
  }

  /** Neutralising leaves the beginning of a tag exactly where the payload never closes it. */
  lemma {:induction false} HeadsThatRemain(f: Fence, t: string)
    requires Usable(f.names)
    ensures HasHead(f, Neutralize(f, t)) <==> LeavesOpenTag(f, t)
    decreases |t|
  {
    if t != [] {
      match MatchLen(f, t)
      case Some(n) =>
        HeadsThatRemain(f, t[n..]);
        HeadsAfterMatch(f, t, n);
      case None =>
        HeadsThatRemain(f, t[1..]);
        HeadsAfterUnmatched(f, t);
    }
  }

  lemma NameSpellsItself(name: string, t: string, c: nat)
    requires UsableName(name) && c + |name| <= |t| && t[c..c + |name|] == name
    ensures SpellsAt(t, c, name) && '>' !in name
  {
    forall i | 0 <= i < |name| ensures Fold(t[c + i]) == name[i] {
      assert t[c..c + |name|][i] == name[i];
    }
  }

  lemma TagIsName(f: Fence, tag: string, t: string, c: nat)
    requires Usable(f.names) && tag in f.names && c + |tag| <= |t| && t[c..c + |tag|] == tag
    ensures NameAt(f, t, c, c + |tag|) && '>' !in tag
  {
    var k :| 0 <= k < |f.names| && f.names[k] == tag;
    assert UsableName(f.names[k]);
    NameSpellsItself(f.names[k], t, c);
  }

  lemma OpeningMatches(f: Fence, tag: string, rest: string)
    requires Usable(f.names) && tag in f.names
    ensures MatchLen(f, Opening(tag) + rest) == Some(|tag| + 2)
  {
    var t := Opening(tag) + rest;
    assert t[1..1 + |tag|] == tag;
    TagIsName(f, tag, t, 1);
    assert HeadShape(f, t, 1, 1, 1, 1 + |tag|);
    ScannerMatchesPattern(f, t, |tag| + 2);
  }

  lemma ClosingMatches(f: Fence, t: string, tag: string)
    requires Usable(f.names) && tag in f.names && t == Closing(tag)
    ensures MatchLen(f, t) == Some(|tag| + 3)
  {
    assert t[2..2 + |tag|] == tag;
    TagIsName(f, tag, t, 2);
    assert HeadShape(f, t, 1, 2, 2, 2 + |tag|);
    ScannerMatchesPattern(f, t, |tag| + 3);
  }

  lemma ClosingEndsTheText(body: string, tag: string, t: string)
    requires t == body + ("\n" + Closing(tag)) && '>' !in tag
    requires forall i :: 0 <= i < |body| ==> body[i] != '>'
    ensures t[|t| - 1] == '>' && forall i :: 0 <= i < |t| - 1 ==> t[i] != '>'
  {
    assert Closing(tag) == "</" + tag + ">";
    forall i | 0 <= i < |t| - 1 ensures t[i] != '>' {
      assert |body| + 3 <= i ==> t[i] == tag[i - |body| - 3];
    }
  }

  lemma MatchToTheEnd(f: Fence, t: string)
    requires HeadEnd(f, t).Some? && HeadEnd(f, t).value < |t|
    requires t[|t| - 1] == '>' && forall i :: 0 <= i < |t| - 1 ==> t[i] != '>'
    ensures MatchLen(f, t) == Some(|t|)
  {
    assert NextClose(t, HeadEnd(f, t).value) == Some(|t| - 1);
  }

  lemma UnclosedHeadTakesTheRest(f: Fence, body: string, tag: string, t: string)
    requires Usable(f.names) && tag in f.names && body != [] && MatchLen(f, body).None?
    requires t == body + ("\n" + Closing(tag))
    ensures MatchLen(f, t) == if HeadEnd(f, body).Some? then Some(|t|) else None
  {
    assert t[|body|] == '\n' && t[|body| + 1] == '<';
    HeadIsLocal(f, body, t, |body|);
    if HeadEnd(f, body).Some? {
      assert Closing(tag)[2..2 + |tag|] == tag;
      TagIsName(f, tag, Closing(tag), 2);
      UnmatchedHeadHasNoClose(f, body);
      ClosingEndsTheText(body, tag, t);
      MatchToTheEnd(f, t);
    }
  }

  function HeadTest(f: Fence): string -> bool {
    (t: string) => HeadEnd(f, t).Some?
  }

  lemma BreakMatchesNothing(f: Fence)
    ensures forall t: string :: t != [] && t[0] == '\n' ==> TagMatcher(f)(t).None?
  {
  }

  /** With the closing behind it the rest of a body is matched to the end or not at all. */
  predicate MatchesRest(m: Matcher, starts: string -> bool, rest: string, close: string) {
    m(rest + ("\n" + close)) == if starts(rest) then Some(|rest| + 1 + |close|) else None
  }

  lemma RestIsMatched(m: Matcher, starts: string -> bool, rest: string, close: string, t: string)
    requires t == rest + ("\n" + close) && m(t) == if starts(rest) then Some(|t|) else None
    ensures MatchesRest(m, starts, rest, close)
  {
    assert |t| == |rest| + 1 + |close|;
  }

  lemma HeadTestIsHeadEnd(f: Fence, t: string)
    ensures HeadTest(f)(t) == HeadEnd(f, t).Some?
  {
  }

  lemma HeadMatchesToTheEnd(f: Fence, rest: string, tag: string)
    requires Usable(f.names) && tag in f.names && rest != [] && MatchLen(f, rest).None?
    ensures MatchesRest(TagMatcher(f), HeadTest(f), rest, Closing(tag))
  {
    var t := rest + ("\n" + Closing(tag));
    UnclosedHeadTakesTheRest(f, rest, tag, t);
    MatcherIsScanner(f, t);
    HeadTestIsHeadEnd(f, rest);
    RestIsMatched(TagMatcher(f), HeadTest(f), rest, Closing(tag), t);
  }

  /** What a matcher and a test must satisfy for the scan of a wrapped body. */
  ghost predicate MatchesToTheEnd(m: Matcher, starts: string -> bool, body: string, close: string) {
    forall k: nat {:trigger body[k..]} :: k < |body| ==> MatchesRest(m, starts, body[k..], close)
  }

  ghost predicate StartsIn(starts: string -> bool, body: string) {
    exists k: nat {:trigger body[k..]} :: k < |body| && starts(body[k..])
  }

  lemma TagsMatchToTheEnd(f: Fence, body: string, tag: string)
    requires Usable(f.names) && tag in f.names && NoTags(f, body)
    ensures MatchesToTheEnd(TagMatcher(f), HeadTest(f), body, Closing(tag))
  {
    forall k: nat | k < |body| ensures MatchesRest(TagMatcher(f), HeadTest(f), body[k..], Closing(tag)) {
      assert MatchAt(f, body, k).None?;
      HeadMatchesToTheEnd(f, body[k..], tag);
    }
  }

  lemma HasHeadMeaning(f: Fence, body: string)
    ensures HasHead(f, body) <==> StartsIn(HeadTest(f), body)
  {
    if k: nat :| k < |body| && HeadAt(f, body, k).Some? {
      assert HeadTest(f)(body[k..]);
    }
    if k: nat :| k < |body| && HeadTest(f)(body[k..]) {
      assert HeadAt(f, body, k).Some?;
    }
  }

  /** For any matcher: an opening, a body in which every match goes to the very end, and a
      closing, separated by line breaks, hold two matches. The second is the closing iff no
      match starts in the body. */
  lemma TwoMatches(m: Matcher, starts: string -> bool, open: string, body: string, close: string, out: string)
    returns (p: nat)
    requires out == open + ("\n" + (body + ("\n" + close))) && open != [] && close != []
    requires m(out) == Some(|open|) && m(close) == Some(|close|)
    requires forall t: string :: t != [] && t[0] == '\n' ==> m(t).None?
    requires MatchesToTheEnd(m, starts, body, close)
    ensures FindAll(m, out, 0) == [Span(0, |open|), Span(p, |out|)]
    ensures |open| < p <= |out| - |close|
    ensures p == |out| - |close| <==> !StartsIn(starts, body)
  {
    var n, k := |open|, 0;
    assert out[n..][0] == '\n';
    while k < |body| && !starts(body[k..])
      invariant k <= |body| && forall j: nat {:trigger body[j..]} :: j < k ==> !starts(body[j..])
      invariant forall i :: n <= i < n + 1 + k ==> m(out[i..]).None?
    {
      assert out[n + 1 + k..] == body[k..] + ("\n" + close);
      k := k + 1;
    }
    p := n + 1 + k;
    if k < |body| {
      assert out[p..] == body[k..] + ("\n" + close);
    } else {
      assert out[p..][0] == '\n';
      p := p + 1;
      assert out[p..] == close;
    }
    FirstAndLastMatch(m, out, n, p);
  }

  lemma Layout(body: string, tag: string, out: string)
    requires out == Opening(tag) + "\n" + body + "\n" + Closing(tag)
    ensures out == Opening(tag) + ("\n" + (body + ("\n" + Closing(tag))))
    ensures out[..|Opening(tag)|] == Opening(tag)
    ensures out[|out| - |Closing(tag)|..] == Closing(tag)
  {
  }

  /** A wrapped payload shows exactly two tags: the opening one, and one that ends with the
      text. The second is the closing tag and nothing more iff the payload closes every tag
      it begins. */
  lemma WrappedShowsTwoTags(f: Fence, t: string, tag: string, out: string) returns (start: nat)
    requires Usable(f.names) && WrapFenced(f, t, tag) == Ok(out)
    ensures FindAll(TagMatcher(f), out, 0) == [Span(0, |Opening(tag)|), Span(start, |out|)]
    ensures |Opening(tag)| < start <= |out| - |Closing(tag)|
    ensures out[..|Opening(tag)|] == Opening(tag) && out[|out| - |Closing(tag)|..] == Closing(tag)
    ensures start == |out| - |Closing(tag)| <==> !LeavesOpenTag(f, t)
  {
    var body, open, close := Neutralize(f, t), Opening(tag), Closing(tag);
    Layout(body, tag, out);
    OpeningMatches(f, tag, "\n" + (body + ("\n" + close)));
    ClosingMatches(f, close, tag);
    BreakMatchesNothing(f);
    NeutralizedHasNoTags(f, t);
    TagsMatchToTheEnd(f, body, tag);
    start := TwoMatches(TagMatcher(f), HeadTest(f), open, body, close, out);
    HasHeadMeaning(f, body);
    HeadsThatRemain(f, t);
  }

  lemma BareHeadIsOpen(f: Fence, tag: string)
    requires Usable(f.names) && tag in f.names
    ensures LeavesOpenTag(f, "<" + tag)
  {
    var t := "<" + tag;
    assert t[1..1 + |tag|] == tag;
    TagIsName(f, tag, t, 1);
    assert HeadShape(f, t, 1, 1, 1, 1 + |tag|);
    ShapeIsScanned(f, t, 1, 1, 1, 1 + |tag|);
    assert t[0..] == t;
  }

  /** The promise that a payload cannot disturb its own fence fails for a bare tag beginning:
      the second tag then starts in the payload and takes the closing tag with it. */
  lemma UnclosedPayloadSwallowsTheFence(f: Fence, tag: string, out: string) returns (start: nat)
    requires Usable(f.names) && WrapFenced(f, "<" + tag, tag) == Ok(out)
    ensures FindAll(TagMatcher(f), out, 0) == [Span(0, |Opening(tag)|), Span(start, |out|)]
    ensures start < |out| - |Closing(tag)|
  {
    BareHeadIsOpen(f, tag);
    start := WrappedShowsTwoTags(f, "<" + tag, tag, out);
  }
}
