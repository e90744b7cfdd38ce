/** What the budget of a conversation counts, and what a reduced conversation still tells of
    the messages it no longer holds. */
module ContextAccounts {
  import opened Powers
  import opened Results
  import opened ContextCascade

  // ----- what the estimate counts -----

  lemma QuotientBounds(a: nat, d: nat, q: nat)
    requires d > 0 && q == a / d
    ensures q * d <= a < q * d + d
  {
    assert a == d * (a / d) + a % d;
  }

  lemma AtLeastOne(a: nat, d: nat, e: nat)
    requires d > 0 && e == if a / d >= 1 then a / d else 1
    ensures (e == 1 || e * d <= a) && a < e * d + d
  {
    QuotientBounds(a, d, a / d);
  }

  /** Characters divided by the ratio, rounded down, but at least one for any text. */
  lemma EstimateIsRoundedDown(n: nat, r: Ratio, e: nat)
    requires Proper(r) && e == EstimateLength(n, r)
    ensures e == 0 <==> n == 0
    ensures n > 0 ==> (e == 1 || e * r.num <= n * r.den) && n * r.den < e * r.num + r.num
  {
    if n > 0 {
      AtLeastOne(n * r.den, r.num, e);
    }
  }

  lemma {:induction false} EstimateOfConcat(a: seq<Message>, b: seq<Message>, r: Ratio)
    requires Proper(r)
    ensures Estimate(a + b, r) == Estimate(a, r) + Estimate(b, r)
  {
    if b == [] {
      assert a + b == a;
    } else {
      EstimateOfConcat(a, b[..|b| - 1], r);
      assert (a + b)[..|a + b| - 1] == a + b[..|b| - 1];
    }
  }

  lemma {:induction false} BlocksOfConcat(a: seq<Block>, b: seq<Block>, r: Ratio)
    requires Proper(r)
    ensures BlocksTokens(a + b, r) == BlocksTokens(a, r) + BlocksTokens(b, r)
  {
    if b == [] {
      assert a + b == a;
    } else {
      BlocksOfConcat(a, b[..|b| - 1], r);
      assert (a + b)[..|a + b| - 1] == a + b[..|b| - 1];
    }
  }

  lemma {:induction false} CallsOfConcat(a: seq<Call>, b: seq<Call>, r: Ratio)
    requires Proper(r)
    ensures CallsTokens(a + b, r) == CallsTokens(a, r) + CallsTokens(b, r)
  {
    if b == [] {
      assert a + b == a;
    } else {
      CallsOfConcat(a, b[..|b| - 1], r);
      assert (a + b)[..|a + b| - 1] == a + b[..|b| - 1];
    }
  }

  lemma OneBlock(b: Block, r: Ratio)
    requires Proper(r)
    ensures BlocksTokens([b], r) == EstimateLength(|b.text|, r) + if b.Object? && b.isImage then 1000 else 0
  {
    assert [b][..0] == [];
  }

  lemma OneCall(c: Call, r: Ratio)
    requires Proper(r)
    ensures CallsTokens([c], r) == EstimateLength(|c.name|, r) + EstimateLength(|c.arguments|, r)
  {
    assert [c][..0] == [];
  }

  /** The estimate goes through the messages, the blocks of a content and the calls one by
      one. A message costs four tokens besides its text and its calls, an image a thousand, and
      a content that is neither text nor a list of blocks nothing. */
  lemma EstimateIsAdditive(ms: seq<Message>, m: Message, r: Ratio)
    requires Proper(r)
    ensures Estimate([], r) == 0
    ensures Estimate(ms + [m], r) == Estimate(ms, r) + 4 + CallsTokens(m.calls, r) +
              (if m.content.Text? then EstimateLength(|m.content.text|, r)
               else if m.content.Blocks? then BlocksTokens(m.content.blocks, r)
               else 0)
  {
    EstimateOfConcat(ms, [m], r);
    assert [m][..0] == [];
  }

  // ----- which messages are large -----

  predicate Ascii(s: string) {
    forall i :: 0 <= i < |s| ==> s[i] as int < 0x80
  }

  lemma {:induction false} AsciiBytes(s: string)
    requires Ascii(s)
    ensures ByteLength(s) == |s|
  {
    if s != "" {
      AsciiBytes(s[..|s| - 1]);
    }
  }

  lemma {:induction false} BytesOfConcat(a: string, b: string)
    ensures ByteLength(a + b) == ByteLength(a) + ByteLength(b)
  {
    if b == "" {
      assert a + b == a;
    } else {
      BytesOfConcat(a, b[..|b| - 1]);
      assert (a + b)[..|a + b| - 1] == a + b[..|b| - 1];
    }
  }

  /** A code of n bytes holds 7 bits if n is 1, and 5n + 1 bits from there on. */
  lemma Utf8LengthIff(c: char, n: nat)
    requires 1 <= n <= 3
    ensures Utf8Length(c) <= n <==> c as int < Pow2(if n == 1 then 7 else 5 * n + 1)
  {
    assert Pow2(7) == 128;
    assert Pow2(11) == 16 * Pow2(7);
    assert Pow2(16) == 32 * Pow2(11);
  }

  lemma {:induction false} BlockBytesOfConcat(a: seq<Block>, b: seq<Block>)
    ensures BlocksLength(a + b) == BlocksLength(a) + BlocksLength(b)
  {
    if b == [] {
      assert a + b == a;
    } else {
      BlockBytesOfConcat(a, b[..|b| - 1]);
      assert (a + b)[..|a + b| - 1] == a + b[..|b| - 1];
    }
  }

  /** An object counts with its serialised form, a string as it is. */
  lemma BytesOfOneMoreBlock(bs: seq<Block>, b: Block)
    ensures BlocksLength(bs + [b]) == BlocksLength(bs) + ByteLength(if b.Object? then b.dump else b.text)
  {
    BlockBytesOfConcat(bs, [b]);
    assert [b][..0] == [];
  }

  /** Only what a tool or a function said can be large; a plain text is by its length, and a
      content that is neither text nor a list of blocks never is. */
  lemma LargeIff(m: Message, threshold: nat)
    ensures IsLarge(m, threshold) ==> m.role == "tool" || m.role == "function"
    ensures (m.role == "tool" || m.role == "function") && m.content.Text? && Ascii(m.content.text) ==>
              (IsLarge(m, threshold) <==> |m.content.text| >= threshold)
    ensures m.content.Other? && threshold > 0 ==> !IsLarge(m, threshold)
  {
    if m.content.Text? && Ascii(m.content.text) {
      AsciiBytes(m.content.text);
    }
  }

  // ----- numbers in texts -----

  predicate IsDigit(c: char) { '0' <= c <= '9' }

  /** The number its digits say, whatever stands between them. */
  function Value(s: string): nat {
    if s == "" then 0
    else
      var rest, last := Value(s[..|s| - 1]), s[|s| - 1];
      if IsDigit(last) then 10 * rest + (last - '0') as nat else rest
  }

  lemma ValueSnoc(s: string, c: char)
    ensures Value(s + [c]) == if IsDigit(c) then 10 * Value(s) + (c - '0') as nat else Value(s)
  {
    assert (s + [c])[..|s|] == s;
  }

  lemma {:induction false} DecimalSays(n: nat)
    ensures Value(Decimal(n)) == n && forall i :: 0 <= i < |Decimal(n)| ==> IsDigit(Decimal(n)[i])
  {
    if n < 10 {
      ValueSnoc("", Digit(n));
      assert Decimal(n) == "" + [Digit(n)];
    } else {
      DecimalSays(n / 10);
      ValueSnoc(Decimal(n / 10), Digit(n % 10));
    }
  }

  lemma ValueOfGroup(s: string, a: nat, b: nat, c: nat)
    requires a < 10 && b < 10 && c < 10
    ensures Value(s + "," + [Digit(a), Digit(b), Digit(c)]) == 1000 * Value(s) + 100 * a + 10 * b + c
  {
    ValueSnoc(s, ',');
    ValueSnoc(s + ",", Digit(a));
    ValueSnoc(s + "," + [Digit(a)], Digit(b));
    ValueSnoc(s + "," + [Digit(a)] + [Digit(b)], Digit(c));
    assert s + "," + [Digit(a), Digit(b), Digit(c)] == s + "," + [Digit(a)] + [Digit(b)] + [Digit(c)];
  }

  lemma LastThreeDigits(n: nat)
    ensures n == 1000 * (n / 1000) + 100 * (n / 100 % 10) + 10 * (n / 10 % 10) + n % 10
  {
    assert n / 10 / 10 == n / 100 && n / 100 / 10 == n / 1000;
  }

  lemma {:induction false} GroupedSays(n: nat)
    ensures Value(Grouped(n)) == n
  {
    if n < 1000 {
      DecimalSays(n);
    } else {
      GroupedSays(n / 1000);
      ValueOfGroup(Grouped(n / 1000), n / 100 % 10, n / 10 % 10, n % 10);
      LastThreeDigits(n);
    }
  }

  lemma GroupFromTheRight(front: string, group: string, t: string, i: nat)
    requires t == front + "," + group && |group| == 3 && i < |t| && ',' !in group
    ensures i < 3 ==> t[|t| - 1 - i] != ','
    ensures i == 3 ==> t[|t| - 1 - i] == ','
    ensures i > 3 ==> i - 4 < |front| && t[|t| - 1 - i] == front[|front| - 1 - (i - 4)]
  {
    if i < 3 {
      assert t[|t| - 1 - i] == group[2 - i];
    }
  }

  lemma ShortHasNoComma(n: nat, i: nat)
    requires n < 1000 && i < |Grouped(n)|
    ensures i < 3 && Grouped(n)[|Grouped(n)| - 1 - i] != ','
  {
    DecimalSays(n);
    DecimalIsShort(n);
    assert IsDigit(Decimal(n)[|Decimal(n)| - 1 - i]);
  }

  lemma GroupIsAppended(n: nat, front: string) returns (group: string)
    requires n >= 1000 && front == Grouped(n / 1000)
    ensures Grouped(n) == front + "," + group && |group| == 3 && ',' !in group
  {
    group := [Digit(n / 100 % 10), Digit(n / 10 % 10), Digit(n % 10)];
  }

  /** Counted from the right, every fourth character is a comma and no other. */
  lemma {:induction false} GroupedHasCommas(n: nat, i: nat, t: string)
    requires t == Grouped(n) && i < |t|
    ensures t[|t| - 1 - i] == ',' <==> i % 4 == 3
  {
    if n < 1000 {
      ShortHasNoComma(n, i);
    } else {
      var front := Grouped(n / 1000);
      var group := GroupIsAppended(n, front);
      GroupFromTheRight(front, group, t, i);
      if i > 3 {
        GroupedHasCommas(n / 1000, i - 4, front);
      }
    }
  }

  lemma {:induction false} ManyBytesUnlessAscii(s: string)
    ensures ByteLength(s) >= |s| && (ByteLength(s) == |s| <==> Ascii(s))
  {
    if s != "" {
      var front, last := s[..|s| - 1], s[|s| - 1];
      ManyBytesUnlessAscii(front);
      assert s == front + [last];
      assert Ascii(s) <==> Ascii(front) && last as int < 0x80;
    }
  }

  /** The number a reference calls bytes counts characters: it is the number of bytes exactly
      for a content in ASCII. */
  lemma ShownSizeIsBytesIff(s: string)
    ensures Value(Grouped(|s|)) == ByteLength(s) <==> Ascii(s)
  {
    GroupedSays(|s|);
    ManyBytesUnlessAscii(s);
  }

  // ----- references -----

  ghost predicate Contains(t: string, part: string) {
    exists i, j :: 0 <= i <= j <= |t| && t[i..j] == part
  }

  lemma PartIsContained(t: string, before: string, part: string, after: string)
    requires t == before + part + after
    ensures Contains(t, part)
  {
    assert t[|before|..|before| + |part|] == part;
  }

  const REFERENCE_START := "[Large output externalized — "
  const REFERENCE_MIDDLE := " bytes]\nArtifact reference: "
  const REFERENCE_END := "\nSHA-256: "

  lemma ReferenceTells(sha: Digest, s: string)
    ensures Contains(Reference(sha, s), Grouped(|s|))
    ensures Contains(Reference(sha, s), ArtifactRef(sha, s))
    ensures Contains(Reference(sha, s), sha(s))
  {
    var t := Reference(sha, s);
    ReferenceLayout(sha, s, t, Grouped(|s|), ArtifactRef(sha, s), sha(s));
  }

  lemma ReferenceLayout(sha: Digest, s: string, t: string, size: string, ref: string, digest: string)
    requires t == Reference(sha, s) && size == Grouped(|s|) && ref == ArtifactRef(sha, s) && digest == sha(s)
    ensures Contains(t, size) && Contains(t, ref) && Contains(t, digest)
  {
    FivePartsAreContained(t, REFERENCE_START, size, REFERENCE_MIDDLE, ref, REFERENCE_END, digest);
  }

  lemma FivePartsAreContained(t: string, a: string, size: string, b: string, ref: string, c: string, digest: string)
    requires t == a + size + b + ref + c + digest
    ensures Contains(t, size) && Contains(t, ref) && Contains(t, digest)
  {
    assert t == a + size + (b + ref + c + digest);
    PartIsContained(t, a, size, b + ref + c + digest);
    assert t == (a + size + b) + ref + (c + digest);
    PartIsContained(t, a + size + b, ref, c + digest);
    assert t == (a + size + b + ref + c) + digest + "";
    PartIsContained(t, a + size + b + ref + c, digest, "");
  }

  /** How many of the first i messages are large. */
  function LargeBefore(ms: seq<Message>, i: nat, threshold: nat): nat
    requires i <= |ms|
  {
    if i == 0 then 0 else LargeBefore(ms, i - 1, threshold) + if IsLarge(ms[i - 1], threshold) then 1 else 0
  }

  lemma {:induction false} ArtifactsSoFar(sha: Digest, ms: seq<Message>, i: nat, threshold: nat)
    requires i <= |ms|
    ensures |ArtifactsOf(sha, ms[..i], threshold)| == LargeBefore(ms, i, threshold)
    ensures ArtifactsOf(sha, ms[..i], threshold) <= ArtifactsOf(sha, ms, threshold)
    decreases |ms| + i
  {
    if i < |ms| {
      ArtifactsSoFar(sha, ms[..|ms| - 1], i, threshold);
      LargeBeforeIsLocal(ms, ms[..|ms| - 1], i, threshold);
      assert ms[..|ms| - 1][..i] == ms[..i];
    } else if i > 0 {
      ArtifactsSoFar(sha, ms, i - 1, threshold);
      assert ms[..i] == ms && ms[..i][..i - 1] == ms[..i - 1];
    }
  }

  lemma {:induction false} LargeBeforeIsLocal(ms: seq<Message>, front: seq<Message>, i: nat, threshold: nat)
    requires i <= |front| && front <= ms
    ensures LargeBefore(ms, i, threshold) == LargeBefore(front, i, threshold)
  {
    if i > 0 {
      LargeBeforeIsLocal(ms, front, i - 1, threshold);
    }
  }

  /** Whoever reads the reference that stands for a large message finds in it the key of the
      artifact that holds the message, the number of its characters and its digest, whose first
      quarter makes the key. */
  lemma ReferenceLeadsToItsArtifact(sha: Digest, ms: seq<Message>, i: nat, threshold: nat, k: nat)
    requires i < |ms| && IsLarge(ms[i], threshold) && k == LargeBefore(ms, i, threshold)
    ensures k < |ArtifactsOf(sha, ms, threshold)|
    ensures var a := ArtifactsOf(sha, ms, threshold)[k];
            var shown := ExternalizeAll(sha, ms, threshold)[i].content;
            && a.content == (if ms[i].content.Text? then ms[i].content.text else ms[i].content.dump)
            && shown.Text? && Contains(shown.text, a.ref)
            && Contains(shown.text, Grouped(|a.content|)) && Contains(shown.text, sha(a.content))
            && a.ref == "artifact:" + sha(a.content)[..16]
            && a.toolName == (if ms[i].name.Some? then ms[i].name.value else "unknown")
  {
    ArtifactsSoFar(sha, ms, i, threshold);
    ArtifactsSoFar(sha, ms, i + 1, threshold);
    assert ms[..i + 1][..i] == ms[..i];
    assert ArtifactsOf(sha, ms[..i + 1], threshold)[k] == ArtifactOf(sha, ms[i]);
    ReferenceTells(sha, ContentString(ms[i].content));
  }

  // ----- what becomes of a message -----

  /** The first two layers keep every position. What a tool or a function said there becomes a
      reference from 10 KB on and is rewritten from 3 KB on; a reference that is as long as
      that itself is rewritten, too. Everything else stays. */
  lemma BandDecides(t: Tools, ms: seq<Message>, summary: string, i: nat)
    requires i < |ms|
    ensures |Stage(t, ms, summary, 2)| == |ms|
    ensures var m, now := ms[i], Stage(t, ms, summary, 2)[i];
            var size, reference := ContentLength(m.content), Reference(t.sha, ContentString(m.content));
            && (now.role, now.name, now.calls) == (m.role, m.name, m.calls)
            && now.content ==
               if (m.role != "tool" && m.role != "function") || size < 3072 then m.content
               else if size < 10240 then Text(t.rewrite(ContentString(m.content)))
               else if ByteLength(reference) < 3072 then Text(reference)
               else Text(t.rewrite(reference))
  {
    var one := Stage(t, ms, summary, 1);
    assert Stage(t, ms, summary, 0) == ms;
    assert one == Layer(t, 0, ms, summary);
    assert Stage(t, ms, summary, 2) == CompressAll(t.rewrite, one, COMPRESS_THRESHOLD);
  }

  /** The window accounts for every message: the first two and the last three are kept in
      order, and the marker between them says how many are not. */
  lemma WindowAccounts(ms: seq<Message>, out: seq<Message>)
    requires |ms| > 5 && out == Layer2Prune(ms, PRUNE_KEEP_FIRST, PRUNE_KEEP_LAST)
    ensures |out| == 6 && out[0] == ms[0] && out[1] == ms[1] && out[3..] == ms[|ms| - 3..]
    ensures out[2].role == "system" && out[2].content.Text? && Contains(out[2].content.text, Decimal(|ms| - 5))
    ensures Value(Decimal(|ms| - 5)) + |out| - 1 == |ms|
  {
    MarkerTells(|ms| - 5, PRUNE_KEEP_FIRST, PRUNE_KEEP_LAST);
    DecimalSays(|ms| - 5);
  }

  const MARKER_START := "[Context window pruned: "

  lemma MarkerTells(pruned: nat, keepFirst: nat, keepLast: nat)
    ensures Contains(Marker(pruned, keepFirst, keepLast).content.text, Decimal(pruned))
  {
    var text := Marker(pruned, keepFirst, keepLast).content.text;
    var start, number := |MARKER_START|, Decimal(pruned);
    assert text[start..start + |number|] == number;
  }

  lemma SummaryTells(summary: string)
    ensures Contains(Summary(summary).content.text, summary)
  {
    var text := Summary(summary).content.text;
    assert text[|text| - |summary|..|text|] == summary;
  }

  lemma WindowStarts(ms: seq<Message>, out: seq<Message>)
    requires |ms| >= 2 && out == Layer2Prune(ms, PRUNE_KEEP_FIRST, PRUNE_KEEP_LAST)
    ensures 2 <= |out| && out[0] == ms[0] && out[1] == ms[1]
    ensures |ms| >= 3 ==> |out| >= 3
  {
  }

  /** The first two messages outlast the window. */
  lemma FirstTwoOutlastTheWindow(t: Tools, ms: seq<Message>, summary: string, out: seq<Message>)
    requires |ms| >= 2 && out == Stage(t, ms, summary, 3)
    ensures |out| >= 2 && SameButForTools(ms[0], out[0]) && SameButForTools(ms[1], out[1])
    ensures |ms| >= 3 ==> |out| >= 3
  {
    BandDecides(t, ms, summary, 0);
    BandDecides(t, ms, summary, 1);
    WindowStarts(Stage(t, ms, summary, 2), out);
  }

  lemma SummaryIsInFront(ms: seq<Message>, summary: string, out: seq<Message>)
    requires |ms| >= 3 && out == Layer3Summarize(ms, summary, PRUNE_KEEP_LAST)
    ensures |out| >= 4 && out[|out| - 4] == Summary(summary) && out[|out| - 3..] == ms[|ms| - 3..]
  {
  }

  /** A conversation that goes through all layers shows the summary right in front of its last
      three messages. */
  lemma SummaryIsShown(t: Tools, ms: seq<Message>, summary: string, out: seq<Message>)
    requires |ms| >= 3 && summary != "" && out == Stage(t, ms, summary, 4)
    ensures |out| >= 4 && out[|out| - 4].role == "system" && out[|out| - 4].content.Text?
    ensures Contains(out[|out| - 4].content.text, summary)
  {
    var three := Stage(t, ms, summary, 3);
    FirstTwoOutlastTheWindow(t, ms, summary, three);
    SummaryIsInFront(three, summary, out);
    SummaryTells(summary);
  }

  /** The mask has one bit for each layer that changed something, as far as the cascade knows. */
  lemma MaskTellsTheLayers(k: nat, externalized: bool, summary: string)
    requires k <= 4
    ensures LayerMask(k, externalized, summary) & 1 != 0 <==> k >= 1 && externalized
    ensures LayerMask(k, externalized, summary) & 2 != 0 <==> k >= 2
    ensures LayerMask(k, externalized, summary) & 4 != 0 <==> k >= 3
    ensures LayerMask(k, externalized, summary) & 8 != 0 <==> k >= 4 && summary != ""
  {
  }
}
