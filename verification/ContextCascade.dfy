/** Reducing a conversation to a token budget: the estimate, four reducing layers, and the
    cascade that applies them one after another until the estimate fits. */
module ContextCascade {
  import opened Results

  const EXTERNALIZE_THRESHOLD := 10240
  const COMPRESS_THRESHOLD := 3072
  const PRUNE_KEEP_FIRST := 2
  const PRUNE_KEEP_LAST := 3
  const PER_MESSAGE_OVERHEAD := 4
  const IMAGE_TOKENS := 1000

  /** A content block: an object with its text, if any, and its serialised form, or a string. */
  datatype Block = Object(text: string, isImage: bool, dump: string) | Plain(text: string)

  datatype Content = Text(text: string) | Blocks(blocks: seq<Block>, dump: string) | Other(dump: string)

  datatype Call = Call(name: string, arguments: string)

  datatype Message = Message(role: string, content: Content, name: Option<string>, calls: seq<Call>)

  datatype Artifact = Artifact(ref: string, content: string, toolName: string)

  /** Characters per token, as a fraction. */
  datatype Ratio = Ratio(num: nat, den: nat)

  predicate Proper(r: Ratio) { r.num > 0 && r.den > 0 }

  // ----- the estimate -----

  function EstimateLength(n: nat, r: Ratio): (e: nat)
    requires Proper(r)
  {
    if n == 0 then 0
    else if n * r.den / r.num >= 1 then n * r.den / r.num else 1
  }

  function EstimateTokens(s: string, r: Ratio): nat
    requires Proper(r)
  {
    EstimateLength(|s|, r)
  }

  function BlockTokens(b: Block, r: Ratio): nat
    requires Proper(r)
  {
    match b
    case Object(text, isImage, _) => EstimateTokens(text, r) + if isImage then IMAGE_TOKENS else 0
    case Plain(text) => EstimateTokens(text, r)
  }

  function BlocksTokens(bs: seq<Block>, r: Ratio): nat
    requires Proper(r)
  {
    if bs == [] then 0 else BlocksTokens(bs[..|bs| - 1], r) + BlockTokens(bs[|bs| - 1], r)
  }

  function CallsTokens(cs: seq<Call>, r: Ratio): nat
    requires Proper(r)
  {
    if cs == [] then 0
    else
      var last := cs[|cs| - 1];
      CallsTokens(cs[..|cs| - 1], r) + EstimateTokens(last.name, r) + EstimateTokens(last.arguments, r)
  }

  function ContentTokens(c: Content, r: Ratio): nat
    requires Proper(r)
  {
    match c
    case Text(text) => EstimateTokens(text, r)
    case Blocks(blocks, _) => BlocksTokens(blocks, r)
    case Other(_) => 0
  }

  function MessageTokens(m: Message, r: Ratio): nat
    requires Proper(r)
  {
    PER_MESSAGE_OVERHEAD + ContentTokens(m.content, r) + CallsTokens(m.calls, r)
  }

  function Estimate(ms: seq<Message>, r: Ratio): nat
    requires Proper(r)
  {
    if ms == [] then 0 else Estimate(ms[..|ms| - 1], r) + MessageTokens(ms[|ms| - 1], r)
  }

  method EstimateMessageTokens(ms: seq<Message>, r: Ratio) returns (total: nat)
    requires Proper(r)
    ensures total == Estimate(ms, r)
  {
    total := 0;
    for i := 0 to |ms|
      invariant total == Estimate(ms[..i], r)
    {
      ghost var before := total;
      var m := ms[i];
      assert ms[..i + 1][..i] == ms[..i];
      total := total + PER_MESSAGE_OVERHEAD;
      match m.content {
        case Text(text) => total := total + EstimateTokens(text, r);
        case Blocks(blocks, _) =>
          for j := 0 to |blocks|
            invariant total == before + PER_MESSAGE_OVERHEAD + BlocksTokens(blocks[..j], r)
          {
            assert blocks[..j + 1][..j] == blocks[..j];
            total := total + BlockTokens(blocks[j], r);
          }
          assert blocks[..|blocks|] == blocks;
        case Other(_) =>
      }
      ghost var content := total;
      for j := 0 to |m.calls|
        invariant total == content + CallsTokens(m.calls[..j], r)
      {
        assert m.calls[..j + 1][..j] == m.calls[..j];
        total := total + EstimateTokens(m.calls[j].name, r) + EstimateTokens(m.calls[j].arguments, r);
      }
      assert m.calls[..|m.calls|] == m.calls;
    }
    assert ms[..|ms|] == ms;
  }

  // ----- sizes in bytes -----

  function Utf8Length(c: char): (n: nat)
    ensures 1 <= n <= 4
  {
    var u := c as int;
    if u < 0x80 then 1 else if u < 0x800 then 2 else if u < 0x10000 then 3 else 4
  }

  function ByteLength(s: string): nat {
    if s == "" then 0 else ByteLength(s[..|s| - 1]) + Utf8Length(s[|s| - 1])
  }

  function BlocksLength(bs: seq<Block>): nat {
    if bs == [] then 0
    else
      var last := bs[|bs| - 1];
      BlocksLength(bs[..|bs| - 1]) + ByteLength(if last.Object? then last.dump else last.text)
  }

  function ContentLength(c: Content): nat {
    match c
    case Text(text) => ByteLength(text)
    case Blocks(blocks, _) => BlocksLength(blocks)
    case Other(_) => 0
  }

  function ContentString(c: Content): string {
    match c
    case Text(text) => text
    case Blocks(_, dump) => dump
    case Other(dump) => dump
  }

  predicate IsLarge(m: Message, threshold: nat) {
    (m.role == "tool" || m.role == "function") && ContentLength(m.content) >= threshold
  }

  // ----- layer 0: large tool outputs become references -----

  function Digit(n: nat): char
    requires n < 10
  {
    '0' + n as char
  }

  function Decimal(n: nat): string {
    if n < 10 then [Digit(n)] else Decimal(n / 10) + [Digit(n % 10)]
  }

  /** A number with its digits in groups of three. */
  function Grouped(n: nat): string {
    if n < 1000 then Decimal(n)
    else Grouped(n / 1000) + "," + [Digit(n / 100 % 10), Digit(n / 10 % 10), Digit(n % 10)]
  }

  /** A hexadecimal digest. */
  type Digest = f: string -> string | forall s :: |f(s)| == 64 witness (s: string) => seq(64, _ => '0')

  function ArtifactRef(sha: Digest, s: string): string {
    "artifact:" + sha(s)[..16]
  }

  function Reference(sha: Digest, s: string): string {
    "[Large output externalized — " + Grouped(|s|) + " bytes]\nArtifact reference: " + ArtifactRef(sha, s) +
    "\nSHA-256: " + sha(s)
  }

  function Externalized(sha: Digest, m: Message): Message {
    m.(content := Text(Reference(sha, ContentString(m.content))))
  }

  function ArtifactOf(sha: Digest, m: Message): Artifact {
    Artifact(ArtifactRef(sha, ContentString(m.content)), ContentString(m.content),
             if m.name.Some? then m.name.value else "unknown")
  }

  function ExternalizeAll(sha: Digest, ms: seq<Message>, threshold: nat): seq<Message> {
    seq(|ms|, i requires 0 <= i < |ms| => if IsLarge(ms[i], threshold) then Externalized(sha, ms[i]) else ms[i])
  }

  function ArtifactsOf(sha: Digest, ms: seq<Message>, threshold: nat): seq<Artifact> {
    if ms == [] then []
    else
      var last := ms[|ms| - 1];
      ArtifactsOf(sha, ms[..|ms| - 1], threshold) + if IsLarge(last, threshold) then [ArtifactOf(sha, last)] else []
  }

  lemma ExternalizeOneMore(sha: Digest, ms: seq<Message>, last: Message, threshold: nat)
    ensures ExternalizeAll(sha, ms + [last], threshold)
         == ExternalizeAll(sha, ms, threshold) + [if IsLarge(last, threshold) then Externalized(sha, last) else last]
    ensures ArtifactsOf(sha, ms + [last], threshold)
         == ArtifactsOf(sha, ms, threshold) + if IsLarge(last, threshold) then [ArtifactOf(sha, last)] else []
  {
    assert (ms + [last])[..|ms|] == ms;
  }

  method Layer0Externalize(sha: Digest, ms: seq<Message>, threshold: nat)
    returns (result: seq<Message>, artifacts: seq<Artifact>)
    ensures result == ExternalizeAll(sha, ms, threshold)
    ensures artifacts == ArtifactsOf(sha, ms, threshold)
  {
    result, artifacts := [], [];
    for i := 0 to |ms|
      invariant result == ExternalizeAll(sha, ms[..i], threshold)
      invariant artifacts == ArtifactsOf(sha, ms[..i], threshold)
    {
      assert ms[..i + 1] == ms[..i] + [ms[i]];
      ExternalizeOneMore(sha, ms[..i], ms[i], threshold);
      if IsLarge(ms[i], threshold) {
        artifacts := artifacts + [ArtifactOf(sha, ms[i])];
        result := result + [Externalized(sha, ms[i])];
      } else {
        result := result + [ms[i]];
      }
    }
    assert ms[..|ms|] == ms;
  }

  /** Puts the contents of the artifacts back, from the last position on, where a flag says
      that a message was externalised. */
  function Restored(ms: seq<Message>, flags: seq<bool>, artifacts: seq<Artifact>): seq<Message>
    requires |flags| == |ms|
  {
    if ms == [] then []
    else
      var n := |ms| - 1;
      if flags[n] && artifacts != [] then
        var k := |artifacts| - 1;
        Restored(ms[..n], flags[..n], artifacts[..k]) + [ms[n].(content := Text(artifacts[k].content))]
      else Restored(ms[..n], flags[..n], artifacts) + [ms[n]]
  }

  function LargeFlags(ms: seq<Message>, threshold: nat): seq<bool> {
    seq(|ms|, i requires 0 <= i < |ms| => IsLarge(ms[i], threshold))
  }

  predicate LargeAreText(ms: seq<Message>, threshold: nat) {
    forall i :: 0 <= i < |ms| && IsLarge(ms[i], threshold) ==> ms[i].content.Text?
  }

  lemma RestoreOneMore(ms: seq<Message>, last: Message, flags: seq<bool>, large: bool,
                       artifacts: seq<Artifact>, a: Artifact)
    requires |flags| == |ms|
    ensures Restored(ms + [last], flags + [large], artifacts + if large then [a] else [])
         == Restored(ms, flags, artifacts) + [if large then last.(content := Text(a.content)) else last]
  {
    assert (ms + [last])[..|ms|] == ms && (flags + [large])[..|ms|] == flags;
    if large {
      assert (artifacts + [a])[..|artifacts|] == artifacts;
    } else {
      assert artifacts + [] == artifacts;
    }
  }

  function SerializedMessage(m: Message): Message {
    m.(content := Text(ContentString(m.content)))
  }

  /** The conversation with the contents of its large messages written out as strings. */
  function Serialized(ms: seq<Message>, threshold: nat): seq<Message> {
    seq(|ms|, i requires 0 <= i < |ms| => if IsLarge(ms[i], threshold) then SerializedMessage(ms[i]) else ms[i])
  }

  lemma ExternalizedIsRestored(sha: Digest, m: Message)
    ensures Externalized(sha, m).(content := Text(ArtifactOf(sha, m).content)) == SerializedMessage(m)
  {
  }

  ghost predicate Restorable(sha: Digest, ms: seq<Message>, threshold: nat) {
    Restored(ExternalizeAll(sha, ms, threshold), LargeFlags(ms, threshold), ArtifactsOf(sha, ms, threshold))
    == Serialized(ms, threshold)
  }

  lemma RestorableOneMore(sha: Digest, ms: seq<Message>, last: Message, all: seq<Message>, threshold: nat)
    requires Restorable(sha, ms, threshold) && all == ms + [last]
    ensures Restorable(sha, all, threshold)
  {
    var large, a := IsLarge(last, threshold), ArtifactOf(sha, last);
    var e := if large then Externalized(sha, last) else last;
    var flags := LargeFlags(ms, threshold);
    ExternalizeOneMore(sha, ms, last, threshold);
    assert LargeFlags(all, threshold) == flags + [large];
    RestoreOneMore(ExternalizeAll(sha, ms, threshold), e, flags, large, ArtifactsOf(sha, ms, threshold), a);
    if large {
      ExternalizedIsRestored(sha, last);
    }
  }

  lemma SerializedIsSameIff(ms: seq<Message>, threshold: nat)
    ensures Serialized(ms, threshold) == ms <==> LargeAreText(ms, threshold)
  {
    if LargeAreText(ms, threshold) {
      assert Serialized(ms, threshold) == ms;
    } else {
      var i :| 0 <= i < |ms| && IsLarge(ms[i], threshold) && !ms[i].content.Text?;
      assert Serialized(ms, threshold)[i] != ms[i];
    }
  }

  lemma NothingIsRestorable(sha: Digest, threshold: nat)
    ensures Restorable(sha, [], threshold)
  {
    assert LargeFlags([], threshold) == [] && ExternalizeAll(sha, [], threshold) == [];
  }

  lemma {:induction false} AllIsRestorable(sha: Digest, ms: seq<Message>, threshold: nat)
    ensures Restorable(sha, ms, threshold)
  {
    if ms == [] {
      NothingIsRestorable(sha, threshold);
    } else {
      var front, last := ms[..|ms| - 1], ms[|ms| - 1];
      AllIsRestorable(sha, front, threshold);
      RestorableOneMore(sha, front, last, ms, threshold);
    }
  }

  /** With the artifacts back in place the input of layer 0 is restored, contents that are not
      strings in their serialised form: so exactly restored iff large contents are strings. */
  lemma ExternalizingLosesNothing(sha: Digest, ms: seq<Message>, threshold: nat)
    ensures var flags, artifacts := LargeFlags(ms, threshold), ArtifactsOf(sha, ms, threshold);
            Restored(ExternalizeAll(sha, ms, threshold), flags, artifacts) == Serialized(ms, threshold)
    ensures Serialized(ms, threshold) == ms <==> LargeAreText(ms, threshold)
  {
    AllIsRestorable(sha, ms, threshold);
    SerializedIsSameIff(ms, threshold);
  }

  lemma {:induction false} BytesPerCharacter(s: string)
    ensures |s| <= ByteLength(s) <= 4 * |s|
  {
    if s != "" {
      BytesPerCharacter(s[..|s| - 1]);
    }
  }

  lemma DecimalIsShort(n: nat)
    requires n < 1000
    ensures 1 <= |Decimal(n)| <= 3 && (n >= 100 ==> |Decimal(n)| == 3)
  {
    if n >= 100 {
      assert n / 10 / 10 < 10;
      assert |Decimal(n / 10 / 10)| == 1;
    }
  }

  lemma {:induction false} GroupedIsShort(n: nat)
    ensures 1 <= |Grouped(n)| <= 3 + n / 100
  {
    if n >= 1000 {
      GroupedIsShort(n / 1000);
    } else {
      DecimalIsShort(n);
    }
  }

  lemma ProductMonotone(d: nat, x: int, y: int)
    requires x <= y
    ensures d * x <= d * y
  {
  }

  lemma QuotientMonotone(a: nat, b: nat, d: nat)
    requires d > 0 && a <= b
    ensures a / d <= b / d
  {
    var p, q := a / d, b / d;
    assert d * p <= a && b < d * (q + 1);
    if q + 1 <= p {
      ProductMonotone(d, q + 1, p);
    }
  }

  lemma EstimateMonotone(m: nat, n: nat, r: Ratio)
    requires Proper(r) && m <= n
    ensures EstimateLength(m, r) <= EstimateLength(n, r)
  {
    if m > 0 {
      assert m * r.den <= n * r.den;
      QuotientMonotone(m * r.den, n * r.den, r.num);
    }
  }

  const REFERENCE_OVERHEAD := 156

  lemma ReferenceLength(sha: Digest, s: string)
    ensures |Reference(sha, s)| == REFERENCE_OVERHEAD + |Grouped(|s|)|
  {
    assert |ArtifactRef(sha, s)| == 25;
  }

  /** A reference is shorter than what it replaces iff that has at least 160 characters; a text
      of 10 KB always has. */
  lemma ReferenceIsShorterIff(sha: Digest, s: string)
    ensures |Reference(sha, s)| < |s| <==> |s| >= 160
    ensures ByteLength(s) >= EXTERNALIZE_THRESHOLD ==> |s| >= 160
  {
    ReferenceLength(sha, s);
    BytesPerCharacter(s);
    GroupedIsShort(|s|);
    if |s| < 1000 {
      DecimalIsShort(|s|);
    }
  }

  /** The estimate of the reference that would replace a content. */
  function ReferenceTokens(c: Content, r: Ratio): nat
    requires Proper(r)
  {
    EstimateLength(REFERENCE_OVERHEAD + |Grouped(|ContentString(c)|)|, r)
  }

  /** By how much externalising changes the estimate, before doing it. */
  function Change(ms: seq<Message>, r: Ratio): int
    requires Proper(r)
  {
    if ms == [] then 0
    else
      var last := ms[|ms| - 1];
      Change(ms[..|ms| - 1], r) +
      if IsLarge(last, EXTERNALIZE_THRESHOLD)
      then ReferenceTokens(last.content, r) - ContentTokens(last.content, r) else 0
  }

  lemma ExternalizedTokens(sha: Digest, m: Message, r: Ratio)
    requires Proper(r)
    ensures MessageTokens(Externalized(sha, m), r)
         == MessageTokens(m, r) + ReferenceTokens(m.content, r) - ContentTokens(m.content, r)
  {
    ReferenceLength(sha, ContentString(m.content));
  }

  lemma EstimateOneMore(ms: seq<Message>, last: Message, r: Ratio)
    requires Proper(r)
    ensures Estimate(ms + [last], r) == Estimate(ms, r) + MessageTokens(last, r)
  {
    assert (ms + [last])[..|ms|] == ms;
  }

  /** Externalising raises the estimate exactly if the references of the large messages are
      estimated higher, all together, than their contents. */
  lemma {:induction false} ExternalizingChangesBy(sha: Digest, ms: seq<Message>, r: Ratio)
    requires Proper(r)
    ensures Estimate(ExternalizeAll(sha, ms, EXTERNALIZE_THRESHOLD), r) == Estimate(ms, r) + Change(ms, r)
  {
    if ms != [] {
      var front, last := ms[..|ms| - 1], ms[|ms| - 1];
      var kept := if IsLarge(last, EXTERNALIZE_THRESHOLD) then Externalized(sha, last) else last;
      assert ms == front + [last];
      ExternalizingChangesBy(sha, front, r);
      ExternalizeOneMore(sha, front, last, EXTERNALIZE_THRESHOLD);
      EstimateOneMore(ExternalizeAll(sha, front, EXTERNALIZE_THRESHOLD), kept, r);
      ExternalizedTokens(sha, last, r);
    }
  }

  /** For one large message: exactly if its content is estimated lower than its reference. */
  lemma ExternalizingRaisesIff(sha: Digest, m: Message, r: Ratio)
    requires Proper(r) && IsLarge(m, EXTERNALIZE_THRESHOLD)
    ensures Estimate([m], r) < Estimate(ExternalizeAll(sha, [m], EXTERNALIZE_THRESHOLD), r) <==>
            ContentTokens(m.content, r) < ReferenceTokens(m.content, r)
  {
    ExternalizingChangesBy(sha, [m], r);
    assert [m][..0] == [];
  }

  /** String contents never raise it. */
  lemma {:induction false} ExternalizingNeverRaises(sha: Digest, ms: seq<Message>, r: Ratio)
    requires Proper(r) && LargeAreText(ms, EXTERNALIZE_THRESHOLD)
    ensures Change(ms, r) <= 0
    ensures Estimate(ExternalizeAll(sha, ms, EXTERNALIZE_THRESHOLD), r) <= Estimate(ms, r)
  {
    if ms != [] {
      var front, last := ms[..|ms| - 1], ms[|ms| - 1];
      ExternalizingNeverRaises(sha, front, r);
      if IsLarge(last, EXTERNALIZE_THRESHOLD) {
        var text := last.content.text;
        ReferenceIsShorterIff(sha, text);
        ReferenceLength(sha, text);
        EstimateMonotone(|Reference(sha, text)|, |text|, r);
      }
    }
    ExternalizingChangesBy(sha, ms, r);
  }

  predicate Textless(b: Block) {
    b.Object? && b.text == "" && !b.isImage
  }

  /** Blocks without text or image always do: they cost nothing until they are a reference. */
  lemma ExternalizingTextlessRaises(sha: Digest, m: Message, r: Ratio)
    requires Proper(r) && IsLarge(m, EXTERNALIZE_THRESHOLD)
    requires m.content.Blocks? && forall i :: 0 <= i < |m.content.blocks| ==> Textless(m.content.blocks[i])
    ensures Estimate([m], r) < Estimate(ExternalizeAll(sha, [m], EXTERNALIZE_THRESHOLD), r)
  {
    TextlessCostNothing(m.content.blocks, r);
    ExternalizingRaisesIff(sha, m, r);
  }

  lemma {:induction false} TextlessCostNothing(bs: seq<Block>, r: Ratio)
    requires Proper(r) && forall i :: 0 <= i < |bs| ==> Textless(bs[i])
    ensures BlocksTokens(bs, r) == 0
  {
    if bs != [] {
      TextlessCostNothing(bs[..|bs| - 1], r);
    }
  }

  // ----- layer 1: large tool outputs are rewritten -----

  /** The rewriting itself, by sampling or truncating, is any function of the content. */
  function Compressed(rewrite: string -> string, m: Message): Message {
    m.(content := Text(rewrite(ContentString(m.content))))
  }

  function CompressAll(rewrite: string -> string, ms: seq<Message>, threshold: nat): seq<Message> {
    seq(|ms|, i requires 0 <= i < |ms| => if IsLarge(ms[i], threshold) then Compressed(rewrite, ms[i]) else ms[i])
  }

  method Layer1Compress(rewrite: string -> string, ms: seq<Message>, threshold: nat) returns (result: seq<Message>)
    ensures result == CompressAll(rewrite, ms, threshold)
  {
    result := [];
    for i := 0 to |ms|
      invariant result == CompressAll(rewrite, ms[..i], threshold)
    {
      result := result + [if IsLarge(ms[i], threshold) then Compressed(rewrite, ms[i]) else ms[i]];
    }
  }

  // ----- layer 2: a window -----

  function Marker(pruned: nat, keepFirst: nat, keepLast: nat): Message {
    Message("system",
            Text("[Context window pruned: " + Decimal(pruned) +
                 " messages removed to stay within token budget. Keeping first " + Decimal(keepFirst) +
                 " + last " + Decimal(keepLast) + " messages.]"),
            None, [])
  }

  /** The last messages; the slice that keeps none keeps all of them. */
  function Tail(ms: seq<Message>, keepLast: nat): seq<Message> {
    if 0 < keepLast < |ms| then ms[|ms| - keepLast..] else ms
  }

  function Layer2Prune(ms: seq<Message>, keepFirst: nat, keepLast: nat): seq<Message> {
    if |ms| <= keepFirst + keepLast then ms
    else ms[..keepFirst] + [Marker(|ms| - keepFirst - keepLast, keepFirst, keepLast)] + Tail(ms, keepLast)
  }

  // ----- layer 3: a summary -----

  function Summary(summary: string): Message {
    Message("system", Text("[Conversation summary — earlier messages have been condensed]\n\n" + summary), None, [])
  }

  predicate StartsWithSystem(ms: seq<Message>) {
    ms != [] && ms[0].role == "system"
  }

  function Layer3Summarize(ms: seq<Message>, summary: string, keepLast: nat): seq<Message> {
    (if StartsWithSystem(ms) then [ms[0]] else []) + [Summary(summary)] + Tail(ms, keepLast)
  }

  /** A conversation no longer than the kept tail has its system message twice afterwards,
      before and behind the summary, and so has any if none is to be kept, as the slice for an
      empty tail takes all. Otherwise it is there once. */
  lemma SystemMessageOnceIff(ms: seq<Message>, summary: string, keepLast: nat)
    requires StartsWithSystem(ms)
    requires forall i :: 0 < i < |ms| ==> ms[i] != ms[0]
    requires Summary(summary) != ms[0]
    ensures (exists i, j :: 0 <= i < j < |Layer3Summarize(ms, summary, keepLast)| &&
              Layer3Summarize(ms, summary, keepLast)[i] == ms[0] && Layer3Summarize(ms, summary, keepLast)[j] == ms[0])
            <==> |ms| <= keepLast || keepLast == 0
  {
    var out := Layer3Summarize(ms, summary, keepLast);
    if |ms| <= keepLast || keepLast == 0 {
      assert out[0] == ms[0] && out[2] == ms[0];
    } else {
      forall j | 0 < j < |out| ensures out[j] != ms[0] {
        assert j >= 2 ==> out[j] == ms[|ms| - keepLast + (j - 2)];
      }
    }
  }

  // ----- the cascade -----

  datatype Tools = Tools(sha: Digest, rewrite: string -> string, ratio: Ratio)

  /** What one layer makes of a conversation. */
  function Layer(t: Tools, layer: nat, ms: seq<Message>, summary: string): seq<Message>
    requires layer < 4
  {
    if layer == 0 then ExternalizeAll(t.sha, ms, EXTERNALIZE_THRESHOLD)
    else if layer == 1 then CompressAll(t.rewrite, ms, COMPRESS_THRESHOLD)
    else if layer == 2 then Layer2Prune(ms, PRUNE_KEEP_FIRST, PRUNE_KEEP_LAST)
    else if summary == "" then ms
    else Layer3Summarize(ms, summary, PRUNE_KEEP_LAST)
  }

  /** The conversation after the first k layers. */
  function Stage(t: Tools, ms: seq<Message>, summary: string, k: nat): seq<Message>
    requires k <= 4
  {
    if k == 0 then ms else Layer(t, k - 1, Stage(t, ms, summary, k - 1), summary)
  }

  predicate Fits(t: Tools, ms: seq<Message>, maxTokens: int)
    requires Proper(t.ratio)
  {
    Estimate(ms, t.ratio) <= maxTokens
  }

  function LayerMask(k: nat, externalized: bool, summary: string): bv8
    requires k <= 4
  {
    (if k >= 1 && externalized then 1 else 0) | (if k >= 2 then 2 else 0) | (if k >= 3 then 4 else 0) |
    (if k >= 4 && summary != "" then 8 else 0)
  }

  predicate OverBudgetBefore(t: Tools, ms: seq<Message>, maxTokens: int, summary: string, k: nat)
    requires Proper(t.ratio) && k <= 4
  {
    forall j: nat :: j < k ==> !Fits(t, Stage(t, ms, summary, j), maxTokens)
  }

  lemma NextStage(t: Tools, ms: seq<Message>, maxTokens: int, summary: string, k: nat, current: seq<Message>)
    requires Proper(t.ratio) && k < 4 && current == Stage(t, ms, summary, k)
    requires OverBudgetBefore(t, ms, maxTokens, summary, k) && !Fits(t, current, maxTokens)
    ensures OverBudgetBefore(t, ms, maxTokens, summary, k + 1)
    ensures Stage(t, ms, summary, k + 1) == Layer(t, k, current, summary)
  {
  }

  /** Layers are applied until the conversation fits: what is returned is the first stage that
      does, or the last one. */
  method ApplyCascade(t: Tools, ms: seq<Message>, maxTokens: int, summary: string)
    returns (current: seq<Message>, artifacts: seq<Artifact>, layersApplied: bv8, k: nat)
    requires Proper(t.ratio)
    ensures k <= 4 && current == Stage(t, ms, summary, k)
    ensures OverBudgetBefore(t, ms, maxTokens, summary, k)
    ensures k < 4 ==> Fits(t, current, maxTokens)
    ensures artifacts == if k == 0 then [] else ArtifactsOf(t.sha, ms, EXTERNALIZE_THRESHOLD)
    ensures layersApplied == LayerMask(k, artifacts != [], summary)
    ensures !Fits(t, current, maxTokens) ==> layersApplied & 4 != 0
  {
    current, artifacts, layersApplied, k := ms, [], 0, 0;
    var est := EstimateMessageTokens(current, t.ratio);
    if est <= maxTokens { return; }

    NextStage(t, ms, maxTokens, summary, 0, current);
    current, artifacts := Layer0Externalize(t.sha, current, EXTERNALIZE_THRESHOLD);
    if artifacts != [] { layersApplied := layersApplied | 1; }
    k := 1;
    est := EstimateMessageTokens(current, t.ratio);
    if est <= maxTokens { return; }

    NextStage(t, ms, maxTokens, summary, 1, current);
    current := Layer1Compress(t.rewrite, current, COMPRESS_THRESHOLD);
    layersApplied := layersApplied | 2;
    k := 2;
    est := EstimateMessageTokens(current, t.ratio);
    if est <= maxTokens { return; }

    NextStage(t, ms, maxTokens, summary, 2, current);
    current := Layer2Prune(current, PRUNE_KEEP_FIRST, PRUNE_KEEP_LAST);
    layersApplied := layersApplied | 4;
    k := 3;
    est := EstimateMessageTokens(current, t.ratio);
    if est <= maxTokens { return; }

    NextStage(t, ms, maxTokens, summary, 3, current);
    k := 4;
    if summary != "" {
      current := Layer3Summarize(current, summary, PRUNE_KEEP_LAST);
      layersApplied := layersApplied | 8;
    }
  }

  /** Where a message of a reduced conversation can come from. */
  ghost predicate HasOrigin(m: Message, ms: seq<Message>, summary: string) {
    || m in ms
    || (exists o :: o in ms && (o.role == "tool" || o.role == "function") && m == o.(content := m.content))
    || (exists n: nat :: m == Marker(n, PRUNE_KEEP_FIRST, PRUNE_KEEP_LAST))
    || m == Summary(summary)
  }

  lemma RewrittenHasOrigin(before: Message, m: Message, ms: seq<Message>, summary: string)
    requires HasOrigin(before, ms, summary)
    requires (before.role == "tool" || before.role == "function") && m == before.(content := m.content)
    ensures HasOrigin(m, ms, summary)
  {
  }

  lemma WindowKeepsOrigin(before: seq<Message>, after: seq<Message>, ms: seq<Message>, summary: string, i: nat)
    requires after == Layer2Prune(before, PRUNE_KEEP_FIRST, PRUNE_KEEP_LAST) && i < |after|
    requires forall m :: m in before ==> HasOrigin(m, ms, summary)
    ensures HasOrigin(after[i], ms, summary)
  {
    if after[i] !in before {
      assert after[i] == Marker(|before| - PRUNE_KEEP_FIRST - PRUNE_KEEP_LAST, PRUNE_KEEP_FIRST, PRUNE_KEEP_LAST);
    }
  }

  lemma LayerKeepsOrigin(t: Tools, layer: nat, before: seq<Message>, ms: seq<Message>, summary: string, i: nat)
    requires layer < 4 && forall m :: m in before ==> HasOrigin(m, ms, summary)
    requires i < |Layer(t, layer, before, summary)|
    ensures HasOrigin(Layer(t, layer, before, summary)[i], ms, summary)
  {
    var after := Layer(t, layer, before, summary);
    if layer <= 1 {
      assert before[i] in before;
      if after[i] != before[i] {
        RewrittenHasOrigin(before[i], after[i], ms, summary);
      }
    } else if layer == 2 {
      WindowKeepsOrigin(before, after, ms, summary, i);
    } else {
      assert after[i] in before || after[i] == Summary(summary);
    }
  }

  /** Every message of every stage is an original one, a tool or function message with another
      content, the marker of the window, or the summary. */
  lemma {:induction false} EveryMessageHasAnOrigin(t: Tools, ms: seq<Message>, summary: string, k: nat)
    requires k <= 4
    ensures forall m :: m in Stage(t, ms, summary, k) ==> HasOrigin(m, ms, summary)
  {
    if k > 0 {
      EveryMessageHasAnOrigin(t, ms, summary, k - 1);
      var before, after := Stage(t, ms, summary, k - 1), Stage(t, ms, summary, k);
      forall i | 0 <= i < |after| ensures HasOrigin(after[i], ms, summary) {
        LayerKeepsOrigin(t, k - 1, before, ms, summary, i);
      }
    }
  }

  // ----- what no layer loses -----

  /** The same message, apart from the content of a tool or function message. */
  predicate SameButForTools(a: Message, b: Message) {
    a == b || ((a.role == "tool" || a.role == "function") && b == a.(content := b.content))
  }

  predicate KeepsFromTheEnd(before: seq<Message>, after: seq<Message>, i: nat)
    requires 1 <= i <= |before|
  {
    i <= |after| && SameButForTools(before[|before| - i], after[|after| - i])
  }

  lemma EndsWithTail(ms: seq<Message>, front: seq<Message>, i: nat)
    requires 1 <= i <= PRUNE_KEEP_LAST && i <= |ms|
    ensures KeepsFromTheEnd(ms, front + Tail(ms, PRUNE_KEEP_LAST), i)
  {
    var tail := Tail(ms, PRUNE_KEEP_LAST);
    assert tail[|tail| - i] == ms[|ms| - i];
    assert (front + tail)[|front + tail| - i] == tail[|tail| - i];
  }

  lemma WindowKeepsRecent(before: seq<Message>, i: nat)
    requires 1 <= i <= PRUNE_KEEP_LAST && i <= |before|
    ensures KeepsFromTheEnd(before, Layer2Prune(before, PRUNE_KEEP_FIRST, PRUNE_KEEP_LAST), i)
  {
    if |before| > PRUNE_KEEP_FIRST + PRUNE_KEEP_LAST {
      var pruned := |before| - PRUNE_KEEP_FIRST - PRUNE_KEEP_LAST;
      EndsWithTail(before, before[..PRUNE_KEEP_FIRST] + [Marker(pruned, PRUNE_KEEP_FIRST, PRUNE_KEEP_LAST)], i);
    }
  }

  lemma SummaryKeepsRecent(before: seq<Message>, summary: string, i: nat)
    requires 1 <= i <= PRUNE_KEEP_LAST && i <= |before|
    ensures KeepsFromTheEnd(before, Layer3Summarize(before, summary, PRUNE_KEEP_LAST), i)
  {
    EndsWithTail(before, (if StartsWithSystem(before) then [before[0]] else []) + [Summary(summary)], i);
  }

  lemma LayerKeepsRecent(t: Tools, layer: nat, before: seq<Message>, summary: string, i: nat)
    requires layer < 4 && 1 <= i <= PRUNE_KEEP_LAST && i <= |before|
    ensures KeepsFromTheEnd(before, Layer(t, layer, before, summary), i)
  {
    if layer == 2 {
      WindowKeepsRecent(before, i);
    } else if layer == 3 && summary != "" {
      SummaryKeepsRecent(before, summary, i);
    }
  }

  lemma KeepingIsTransitive(a: seq<Message>, b: seq<Message>, c: seq<Message>, i: nat)
    requires 1 <= i <= |a| && KeepsFromTheEnd(a, b, i) && KeepsFromTheEnd(b, c, i)
    ensures KeepsFromTheEnd(a, c, i)
  {
  }

  /** The three most recent messages are never lost, whatever is applied: they stay the last
      ones in their order, with the contents of tool and function messages rewritten at most. */
  lemma {:induction false} RecentMessagesSurvive(t: Tools, ms: seq<Message>, summary: string, k: nat, i: nat)
    requires k <= 4 && 1 <= i <= PRUNE_KEEP_LAST && i <= |ms|
    ensures KeepsFromTheEnd(ms, Stage(t, ms, summary, k), i)
  {
    if k > 0 {
      var before, after := Stage(t, ms, summary, k - 1), Stage(t, ms, summary, k);
      RecentMessagesSurvive(t, ms, summary, k - 1, i);
      LayerKeepsRecent(t, k - 1, before, summary, i);
      KeepingIsTransitive(ms, before, after, i);
    }
  }

  lemma LayerKeepsSystemMessage(t: Tools, layer: nat, before: seq<Message>, summary: string)
    requires layer < 4 && StartsWithSystem(before)
    ensures StartsWithSystem(Layer(t, layer, before, summary)) && Layer(t, layer, before, summary)[0] == before[0]
  {
    if layer <= 1 {
      assert before[0].role != "tool" && before[0].role != "function";
    }
  }

  /** A system message at the front stays there, unchanged. */
  lemma {:induction false} SystemMessageSurvives(t: Tools, ms: seq<Message>, summary: string, k: nat)
    requires k <= 4 && StartsWithSystem(ms)
    ensures StartsWithSystem(Stage(t, ms, summary, k)) && Stage(t, ms, summary, k)[0] == ms[0]
  {
    if k > 0 {
      SystemMessageSurvives(t, ms, summary, k - 1);
      LayerKeepsSystemMessage(t, k - 1, Stage(t, ms, summary, k - 1), summary);
    }
  }

  /** Once the window was applied at most six messages are left, and five after a summary. */
  lemma PrunedIsShort(t: Tools, ms: seq<Message>, summary: string)
    ensures |Stage(t, ms, summary, 3)| <= PRUNE_KEEP_FIRST + PRUNE_KEEP_LAST + 1
    ensures summary != "" ==> |Stage(t, ms, summary, 4)| <= 2 + PRUNE_KEEP_LAST
  {
  }
}
