/** Which texts are fence tags, however they are written, and what a payload without any becomes. */
module PromptFenceTags {
  import opened Results
  import opened Substitution
  import opened PromptFence

  /** A shown character stands for a letter of a name in either case, and the Kelvin sign for k. */
  predicate StandsFor(shown: char, letter: char) {
    || shown == letter
    || ('a' <= letter <= 'z' && shown as int - 'A' as int == letter as int - 'a' as int)
    || (letter == 'k' && shown == '\U{212A}')
  }

  predicate Spells(shown: string, name: string) {
    |shown| == |name| && forall i :: 0 <= i < |name| ==> StandsFor(shown[i], name[i])
  }

  lemma FoldIsCaseBlind(shown: char, letter: char)
    requires 'a' <= letter <= 'z' || letter == '-'
    ensures Fold(shown) == letter <==> StandsFor(shown, letter)
  {
  }

  lemma SpellingIsCaseBlind(t: string, c: nat, name: string)
    requires UsableName(name) && c + |name| <= |t|
    ensures SpellsAt(t, c, name) <==> Spells(t[c..c + |name|], name)
  {
    var shown := t[c..c + |name|];
    forall i | 0 <= i < |name| ensures Fold(t[c + i]) == name[i] <==> StandsFor(shown[i], name[i]) {
      assert shown[i] == t[c + i];
      FoldIsCaseBlind(shown[i], name[i]);
    }
  }

  predicate AllSpace(t: string) {
    forall i :: 0 <= i < |t| ==> IsSpace(t[i])
  }

  function Slash(closing: bool): string { if closing then "/" else "" }

  /** The beginning of a tag up to the end of its name. */
  function Head(a: string, closing: bool, b: string, shown: string): string {
    "<" + a + Slash(closing) + b + shown
  }

  lemma HeadLayout(a: string, closing: bool, b: string, shown: string, rest: string, t: string)
    requires AllSpace(a) && AllSpace(b) && t == Head(a, closing, b, shown) + rest
    ensures var i := 1 + |a|; var j := i + |Slash(closing)|; var c := j + |b|;
            && c + |shown| + |rest| == |t| && t[0] == '<' && SpaceRun(t, 1, i)
            && (closing ==> t[i] == '/') && SpaceRun(t, j, c)
            && t[c..c + |shown|] == shown && t[c + |shown|..] == rest
  {
    var i := 1 + |a|;
    var j := i + |Slash(closing)|;
    forall k | 1 <= k < i ensures IsSpace(t[k]) {
      assert t[k] == a[k - 1];
    }
    forall k | j <= k < j + |b| ensures IsSpace(t[k]) {
      assert t[k] == b[k - j];
    }
  }

  lemma HeadIsShape(f: Fence, a: string, closing: bool, b: string, shown: string, name: string, rest: string, t: string)
    requires Usable(f.names) && name in f.names && Spells(shown, name)
    requires AllSpace(a) && AllSpace(b) && t == Head(a, closing, b, shown) + rest
    ensures var i := 1 + |a|; var j := i + |Slash(closing)|; var c := j + |b|;
            HeadShape(f, t, i, j, c, c + |shown|)
  {
    HeadLayout(a, closing, b, shown, rest, t);
    var k :| 0 <= k < |f.names| && f.names[k] == name;
    assert UsableName(f.names[k]);
    var c := 1 + |a| + |Slash(closing)| + |b|;
    SpellingIsCaseBlind(t, c, name);
  }

  lemma TagLayout(head: string, attributes: string, after: string, t: string, n: nat)
    requires '>' !in attributes && t == head + attributes + ">" + after && n == |head| + |attributes| + 1
    ensures n <= |t| && t[n - 1] == '>' && (forall k :: |head| <= k < n - 1 ==> t[k] != '>')
    ensures t[|head|] == (attributes + ">")[0] && t == head + (attributes + ">" + after)
  {
    forall k | |head| <= k < n - 1 ensures t[k] != '>' {
      assert t[k] == attributes[k - |head|];
    }
    assert t == head + (attributes + ">" + after);
  }

  lemma ClosedHeadMatches(f: Fence, head: string, attributes: string, after: string, t: string, a: nat, b: nat, c: nat)
    requires Usable(f.names) && t == head + attributes + ">" + after && HeadShape(f, t, a, b, c, |head|)
    requires '>' !in attributes && (attributes != [] ==> !IsWord(f, attributes[0]))
    ensures MatchLen(f, t) == Some(|head| + |attributes| + 1)
  {
    var n := |head| + |attributes| + 1;
    TagLayout(head, attributes, after, t, n);
    PatternIsMatched(f, t, n, a, b, c, |head|);
  }

  lemma HeadLength(a: string, closing: bool, b: string, shown: string)
    ensures |Head(a, closing, b, shown)| == 1 + |a| + |Slash(closing)| + |b| + |shown|
  {
  }

  /** Every writing of a tag is a tag: in any mix of cases, opening or closing, with white
      space around the slash, and with whatever follows the name up to the closing bracket,
      as long as the name ends there. */
  lemma TagInAnyWriting(
    f: Fence, a: string, closing: bool, b: string, shown: string, name: string, attributes: string, after: string,
    head: string, t: string)
    requires Usable(f.names) && name in f.names && Spells(shown, name) && AllSpace(a) && AllSpace(b)
    requires '>' !in attributes && (attributes != [] ==> !IsWord(f, attributes[0]))
    requires head == Head(a, closing, b, shown) && t == head + attributes + ">" + after
    ensures MatchLen(f, t) == Some(|head| + |attributes| + 1)
  {
    TagLayout(head, attributes, after, t, |head| + |attributes| + 1);
    HeadIsShape(f, a, closing, b, shown, name, attributes + ">" + after, t);
    HeadLength(a, closing, b, shown);
    var i := 1 + |a|;
    var j := i + |Slash(closing)|;
    ClosedHeadMatches(f, head, attributes, after, t, i, j, j + |b|);
  }

  /** A name that goes on is another name, and no tag. */
  lemma LongerNameIsNoTag(
    f: Fence, a: string, closing: bool, b: string, shown: string, name: string, more: string)
    requires Usable(f.names) && name in f.names && Spells(shown, name) && AllSpace(a) && AllSpace(b)
    requires more != [] && IsWord(f, more[0])
    ensures MatchLen(f, Head(a, closing, b, shown) + more) == None
  {
    var head := Head(a, closing, b, shown);
    var t, d := head + more, |head|;
    HeadIsShape(f, a, closing, b, shown, name, more, t);
    assert |head| == 1 + |a| + |Slash(closing)| + |b| + |shown|;
    ShapeIsScanned(f, t, 1 + |a|, 1 + |a| + |Slash(closing)|, 1 + |a| + |Slash(closing)| + |b|, d);
    assert t[d] == more[0];
  }

  /** Exactly the known tags wrap, and a payload without tags stands between them as it is. */
  lemma TaglessPayloadIsKept(f: Fence, t: string, tag: string)
    ensures WrapFenced(f, t, tag).Ok? <==> tag in f.names
    ensures tag in f.names && NoTags(f, t) ==>
              WrapFenced(f, t, tag) == Ok(Opening(tag) + "\n" + t + "\n" + Closing(tag))
  {
    if NoTags(f, t) {
      TaglessTextIsKept(f, t);
    }
  }
}
