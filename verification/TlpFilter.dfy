/** The TLP:RED filter on what tools return: removal of tagged parts of a JSON tree and the
    egress gate behind it. */
module TlpFilter {
  import opened Graphs
  import opened Results

  datatype Json =
    | Null
    | Bool(b: bool)
    | Num(n: real)
    | Str(s: string)
    | Arr(items: seq<Json>)
    | Obj(fields: seq<Field>)

  datatype Field = Field(key: string, value: Json)

  const TLP_FIELD_NAMES := {"tlp_level", "tlp", "TLP", "TLPLevel"}
  const MAX_SCAN_DEPTH := 64

  /** The strings whose lower-case form is `red`. */
  predicate SaysRed(s: string) {
    && |s| == 3
    && (s[0] == 'r' || s[0] == 'R') && (s[1] == 'e' || s[1] == 'E') && (s[2] == 'd' || s[2] == 'D')
  }

  predicate IsTag(f: Field) {
    f.key in TLP_FIELD_NAMES && f.value.Str? && SaysRed(f.value.s)
  }

  predicate RedTagged(node: Json) {
    node.Obj? && exists f :: f in node.fields && IsTag(f)
  }

  function Lower(c: char): char {
    if 'A' <= c <= 'Z' then c - 'A' + 'a' else c
  }

  lemma SaysRedIgnoresCase(s: string)
    ensures SaysRed(s) <==> |s| == 3 && [Lower(s[0]), Lower(s[1]), Lower(s[2])] == "red"
  {
    if |s| == 3 {
      var lowered := [Lower(s[0]), Lower(s[1]), Lower(s[2])];
      assert lowered == "red" <==> lowered[0] == 'r' && lowered[1] == 'e' && lowered[2] == 'd';
    }
  }

  /** A string that says red in one of four fields. */
  predicate TagsRed(f: Field) {
    && (f.key == "tlp_level" || f.key == "tlp" || f.key == "TLP" || f.key == "TLPLevel")
    && f.value.Str? && |f.value.s| == 3
    && [Lower(f.value.s[0]), Lower(f.value.s[1]), Lower(f.value.s[2])] == "red"
  }

  lemma TagMeaning(f: Field)
    ensures IsTag(f) <==> TagsRed(f)
  {
    if f.value.Str? {
      SaysRedIgnoresCase(f.value.s);
    }
  }

  /** An object is tagged by any of its fields, whatever the others hold. */
  lemma TaggedIff(node: Json)
    ensures RedTagged(node) <==> node.Obj? && exists i :: 0 <= i < |node.fields| && TagsRed(node.fields[i])
  {
    if node.Obj? {
      forall i | 0 <= i < |node.fields| ensures IsTag(node.fields[i]) <==> TagsRed(node.fields[i]) {
        TagMeaning(node.fields[i]);
      }
      if RedTagged(node) {
        var f :| f in node.fields && IsTag(f);
        var i :| 0 <= i < |node.fields| && node.fields[i] == f;
        assert TagsRed(node.fields[i]);
      }
    }
  }

  const PLACEHOLDER := Obj([
    Field("_tlp_redacted", Bool(true)),
    Field("reason", Str("TLP:RED data not propagated outside investigation"))])

  // ----- what must not pass -----

  /** Some object in the tree, the root included, is tagged RED. */
  predicate HasRed(node: Json) {
    || RedTagged(node)
    || (node.Arr? && exists v :: v in node.items && HasRed(v))
    || (node.Obj? && exists f :: f in node.fields && HasRed(f.value))
  }

  /** The number of RED objects not inside another one, the root left out of account. */
  function OutermostRed(node: Json): nat
    decreases node, 1
  {
    match node
    case Arr(items) => OutermostRedItems(items)
    case Obj(fields) => OutermostRedFields(fields)
    case _ => 0
  }

  function OutermostRedItems(items: seq<Json>): nat
    decreases items, 0
  {
    if items == [] then 0
    else
      var last := items[|items| - 1];
      OutermostRedItems(items[..|items| - 1]) + if RedTagged(last) then 1 else OutermostRed(last)
  }

  function OutermostRedFields(fields: seq<Field>): nat
    decreases fields, 0
  {
    if fields == [] then 0
    else
      var last := fields[|fields| - 1].value;
      OutermostRedFields(fields[..|fields| - 1]) + if RedTagged(last) then 1 else OutermostRed(last)
  }

  // ----- the filter -----

  /** RED items are dropped from lists, RED values of objects replaced by the placeholder. */
  function Strip(node: Json): Json
    decreases node, 1
  {
    match node
    case Arr(items) => Arr(StripItems(items))
    case Obj(fields) => Obj(StripFields(fields))
    case _ => node
  }

  function StripItems(items: seq<Json>): seq<Json>
    decreases items, 0
  {
    if items == [] then []
    else
      var last := items[|items| - 1];
      StripItems(items[..|items| - 1]) + if RedTagged(last) then [] else [Strip(last)]
  }

  function StripFields(fields: seq<Field>): (r: seq<Field>)
    decreases fields, 0
  {
    if fields == [] then []
    else
      var last := fields[|fields| - 1];
      StripFields(fields[..|fields| - 1]) +
      [Field(last.key, if RedTagged(last.value) then PLACEHOLDER else Strip(last.value))]
  }

  method StripRedItems(node: Json) returns (cleaned: Json, stripped: nat)
    ensures cleaned == Strip(node) && stripped == OutermostRed(node)
    decreases node
  {
    stripped := 0;
    match node {
      case Obj(fields) =>
        var cleanedFields: seq<Field> := [];
        for i := 0 to |fields|
          invariant cleanedFields == StripFields(fields[..i]) && stripped == OutermostRedFields(fields[..i])
        {
          assert fields[..i + 1][..i] == fields[..i];
          var key, value := fields[i].key, fields[i].value;
          if RedTagged(value) {
            stripped := stripped + 1;
            cleanedFields := cleanedFields + [Field(key, PLACEHOLDER)];
          } else {
            var newValue, sub := StripRedItems(value);
            stripped := stripped + sub;
            cleanedFields := cleanedFields + [Field(key, newValue)];
          }
        }
        assert fields[..|fields|] == fields;
        cleaned := Obj(cleanedFields);
      case Arr(items) =>
        var cleanedItems: seq<Json> := [];
        for i := 0 to |items|
          invariant cleanedItems == StripItems(items[..i]) && stripped == OutermostRedItems(items[..i])
        {
          assert items[..i + 1][..i] == items[..i];
          if RedTagged(items[i]) {
            stripped := stripped + 1;
          } else {
            var newItem, sub := StripRedItems(items[i]);
            stripped := stripped + sub;
            cleanedItems := cleanedItems + [newItem];
          }
        }
        assert items[..|items|] == items;
        cleaned := Arr(cleanedItems);
      case _ =>
        cleaned := node;
    }
  }

  // ----- what the filter achieves -----

  /** Only string values can be tags, and the filter keeps those: a node that is not tagged
      stays untagged. */
  lemma {:induction false} StripKeepsTags(fields: seq<Field>)
    ensures RedTagged(Obj(StripFields(fields))) <==> RedTagged(Obj(fields))
  {
    if fields != [] {
      var front, last := fields[..|fields| - 1], fields[|fields| - 1];
      StripKeepsTags(front);
      assert fields == front + [last];
    }
  }

  lemma {:induction false} StrippedHasNoRed(node: Json)
    requires !RedTagged(node)
    ensures !HasRed(Strip(node))
    decreases node, 1
  {
    match node
    case Arr(items) => StrippedItemsHaveNoRed(items);
    case Obj(fields) =>
      StripKeepsTags(fields);
      StrippedFieldsHaveNoRed(fields);
    case _ =>
  }

  lemma {:induction false} StrippedItemsHaveNoRed(items: seq<Json>)
    ensures forall v :: v in StripItems(items) ==> !HasRed(v)
    decreases items, 0
  {
    if items != [] {
      var last := items[|items| - 1];
      StrippedItemsHaveNoRed(items[..|items| - 1]);
      if !RedTagged(last) {
        StrippedHasNoRed(last);
      }
    }
  }

  lemma {:induction false} StrippedFieldsHaveNoRed(fields: seq<Field>)
    ensures forall f :: f in StripFields(fields) ==> !HasRed(f.value)
    decreases fields, 0
  {
    if fields != [] {
      var last := fields[|fields| - 1];
      StrippedFieldsHaveNoRed(fields[..|fields| - 1]);
      if !RedTagged(last.value) {
        StrippedHasNoRed(last.value);
      }
    }
  }

  /** The count is zero exactly if the filter returns its input, and exactly if no RED object
      is left below the root. */
  lemma {:induction false} CountIsZeroIffUnchanged(node: Json)
    ensures OutermostRed(node) == 0 <==> Strip(node) == node
    ensures !RedTagged(node) ==> (OutermostRed(node) == 0 <==> !HasRed(node))
    decreases node, 1
  {
    match node
    case Arr(items) => ItemsUnchanged(items);
    case Obj(fields) => FieldsUnchanged(fields);
    case _ =>
  }

  lemma {:induction false} ItemsUnchanged(items: seq<Json>)
    ensures |StripItems(items)| <= |items|
    ensures OutermostRedItems(items) == 0 <==> StripItems(items) == items
    ensures OutermostRedItems(items) == 0 <==> forall v :: v in items ==> !HasRed(v)
    decreases items, 0
  {
    if items != [] {
      var front, last := items[..|items| - 1], items[|items| - 1];
      assert items == front + [last];
      ItemsUnchanged(front);
      CountIsZeroIffUnchanged(last);
      assert last in items;
      if |StripItems(items)| == |items| {
        assert StripItems(items)[..|front|] == StripItems(front);
      }
    }
  }

  lemma {:induction false} FieldsUnchanged(fields: seq<Field>)
    ensures |StripFields(fields)| == |fields|
    ensures OutermostRedFields(fields) == 0 <==> StripFields(fields) == fields
    ensures OutermostRedFields(fields) == 0 <==> forall f :: f in fields ==> !HasRed(f.value)
    decreases fields, 0
  {
    if fields != [] {
      var front, last := fields[..|fields| - 1], fields[|fields| - 1];
      assert fields == front + [last];
      FieldsUnchanged(front);
      CountIsZeroIffUnchanged(last.value);
      assert StripFields(fields)[..|front|] == StripFields(front);
      assert !RedTagged(PLACEHOLDER);
    }
  }

  /** What stands in the place of a RED value tells that something was there, and why it is
      not. */
  lemma {:induction false} RedValueIsReplaced(fields: seq<Field>, i: nat)
    requires i < |fields| && RedTagged(fields[i].value)
    ensures |StripFields(fields)| == |fields|
    ensures StripFields(fields)[i] == Field(fields[i].key, Obj([
              Field("_tlp_redacted", Bool(true)),
              Field("reason", Str("TLP:RED data not propagated outside investigation"))]))
  {
    FieldsUnchanged(fields);
    FieldsUnchanged(fields[..|fields| - 1]);
    if i < |fields| - 1 {
      RedValueIsReplaced(fields[..|fields| - 1], i);
    }
  }

  lemma StripIsIdempotent(node: Json)
    requires !RedTagged(node)
    ensures Strip(Strip(node)) == Strip(node) && OutermostRed(Strip(node)) == 0
  {
    StrippedHasNoRed(node);
    CountIsZeroIffUnchanged(Strip(node));
  }

  // ----- what the filter keeps -----

  /** A tree written out from left to right. */
  datatype Mark = OpenList | OpenObject | Close | Key(key: string) | Leaf(value: Json) | Redacted

  /** What may be seen of a tree: nothing of a RED item in a list; of a RED value its key, and
      that something was there. */
  function Visible(node: Json): seq<Mark>
    decreases node, 1
  {
    match node
    case Arr(items) => [OpenList] + VisibleItems(items) + [Close]
    case Obj(fields) => [OpenObject] + VisibleFields(fields) + [Close]
    case _ => [Leaf(node)]
  }

  function VisibleItems(items: seq<Json>): seq<Mark>
    decreases items, 0
  {
    if items == [] then []
    else
      var last := items[|items| - 1];
      VisibleItems(items[..|items| - 1]) + if RedTagged(last) then [] else Visible(last)
  }

  function VisibleFields(fields: seq<Field>): seq<Mark>
    decreases fields, 0
  {
    if fields == [] then []
    else
      var last := fields[|fields| - 1];
      VisibleFields(fields[..|fields| - 1]) + [Key(last.key)] +
      if RedTagged(last.value) || last.value == PLACEHOLDER then [Redacted] else Visible(last.value)
  }

  lemma StripKeepsRoot(node: Json)
    ensures RedTagged(Strip(node)) <==> RedTagged(node)
    ensures node.Obj? <==> Strip(node).Obj?
    ensures !node.Obj? && !node.Arr? <==> !Strip(node).Obj? && !Strip(node).Arr?
  {
    if node.Obj? {
      StripKeepsTags(node.fields);
    }
  }

  function StripField(f: Field): Field {
    Field(f.key, if RedTagged(f.value) then PLACEHOLDER else Strip(f.value))
  }

  lemma StripTwoFields(f: Field, g: Field)
    ensures StripFields([f, g]) == [StripField(f), StripField(g)]
  {
    assert [f, g][..1] == [f] && [f][..0] == [];
    assert StripFields([f]) == [] + [StripField(f)];
  }

  /** A field that shows no object or list afterwards was the same before. */
  lemma PlainFieldIsKept(f: Field, plain: Field)
    requires !plain.value.Obj? && !plain.value.Arr?
    ensures StripField(f) == plain <==> f == plain
  {
    StripKeepsRoot(f.value);
  }

  lemma OnlyThePlaceholderLooksLikeIt(node: Json)
    ensures Strip(node) == PLACEHOLDER <==> node == PLACEHOLDER
  {
    if node.Obj? {
      FieldsUnchanged(node.fields);
      if |node.fields| == 2 {
        var f, g := node.fields[0], node.fields[1];
        assert node.fields == [f, g];
        StripTwoFields(f, g);
        PlainFieldIsKept(f, PLACEHOLDER.fields[0]);
        PlainFieldIsKept(g, PLACEHOLDER.fields[1]);
      }
    }
  }

  /** The filter loses nothing else: what may be seen of a tree, and its order, stay the same. */
  lemma {:induction false} VisibleIsKept(node: Json)
    ensures Visible(Strip(node)) == Visible(node)
    decreases node, 1
  {
    match node
    case Arr(items) => VisibleItemsAreKept(items);
    case Obj(fields) => VisibleFieldsAreKept(fields);
    case _ =>
  }

  lemma {:induction false} VisibleItemsAreKept(items: seq<Json>)
    ensures VisibleItems(StripItems(items)) == VisibleItems(items)
    decreases items, 0
  {
    if items != [] {
      var front, last := items[..|items| - 1], items[|items| - 1];
      VisibleItemsAreKept(front);
      if RedTagged(last) {
        assert StripItems(items) == StripItems(front) && VisibleItems(items) == VisibleItems(front);
      } else {
        VisibleIsKept(last);
        StripKeepsRoot(last);
        assert StripItems(items)[..|StripItems(front)|] == StripItems(front);
      }
    }
  }

  lemma {:induction false} VisibleFieldsAreKept(fields: seq<Field>)
    ensures VisibleFields(StripFields(fields)) == VisibleFields(fields)
    decreases fields, 0
  {
    if fields != [] {
      var front, last := fields[..|fields| - 1], fields[|fields| - 1];
      VisibleFieldsAreKept(front);
      assert StripFields(fields)[..|StripFields(front)|] == StripFields(front);
      if !RedTagged(last.value) {
        VisibleIsKept(last.value);
        StripKeepsRoot(last.value);
        OnlyThePlaceholderLooksLikeIt(last.value);
      }
    }
  }

  // ----- the count, by positions in the tree -----

  function Child(node: Json, i: nat): Option<Json> {
    if node.Arr? && i < |node.items| then Some(node.items[i])
    else if node.Obj? && i < |node.fields| then Some(node.fields[i].value)
    else None
  }

  predicate RedAt(node: Json, path: seq<nat>) {
    if path == [] then RedTagged(node)
    else Child(node, path[0]).Some? && RedAt(Child(node, path[0]).value, path[1..])
  }

  /** A RED node below the root with no RED node between the two. */
  predicate OutermostRedAt(node: Json, path: seq<nat>) {
    path != [] && RedAt(node, path) && forall k :: 0 < k < |path| ==> !RedAt(node, path[..k])
  }

  lemma OutermostRedStep(node: Json, path: seq<nat>)
    ensures OutermostRedAt(node, path) <==>
      path != [] && Child(node, path[0]).Some? &&
      var child := Child(node, path[0]).value;
      if RedTagged(child) then |path| == 1 else OutermostRedAt(child, path[1..])
  {
    if path != [] && Child(node, path[0]).Some? {
      var child, rest := Child(node, path[0]).value, path[1..];
      forall k | 0 < k <= |path| ensures RedAt(node, path[..k]) <==> RedAt(child, rest[..k - 1]) {
        assert path[..k][1..] == rest[..k - 1];
      }
      assert path[..|path|] == path && rest[..|rest|] == rest && rest[..0] == [];
      if |path| > 1 {
        assert RedAt(node, path[..1]) <==> RedTagged(child);
        forall k | 0 < k < |rest| ensures RedAt(child, rest[..k]) <==> RedAt(node, path[..k + 1]) {}
      }
    }
  }

  function Under(i: nat, paths: seq<seq<nat>>): (r: seq<seq<nat>>)
    ensures |r| == |paths|
  {
    seq(|paths|, k requires 0 <= k < |paths| => [i] + paths[k])
  }

  /** The paths to the outermost RED nodes under the first n children. */
  ghost predicate Lists(node: Json, n: nat, paths: seq<seq<nat>>) {
    && Distinct(paths)
    && forall p :: p in paths <==> OutermostRedAt(node, p) && p[0] < n
  }

  /** Appending the paths under child n, which are those of the child, or the child itself. */
  lemma ListsOneMore(node: Json, n: nat, paths: seq<seq<nat>>, sub: seq<seq<nat>>)
    requires Lists(node, n, paths) && Child(node, n).Some? && Distinct(sub)
    requires forall q :: q in sub <==>
               if RedTagged(Child(node, n).value) then q == [] else OutermostRedAt(Child(node, n).value, q)
    ensures Lists(node, n + 1, paths + Under(n, sub))
  {
    var added := Under(n, sub);
    forall i, j | 0 <= i < j < |added| ensures added[i] != added[j] {
      assert added[i][1..] == sub[i] && added[j][1..] == sub[j];
    }
    forall p ensures p in added <==> OutermostRedAt(node, p) && p[0] == n {
      OutermostRedStep(node, p);
      if p in added {
        var k :| 0 <= k < |added| && added[k] == p;
        assert p[1..] == sub[k] && sub[k] in sub;
      }
      if OutermostRedAt(node, p) && p[0] == n {
        assert p[1..] in sub;
        var k :| 0 <= k < |sub| && sub[k] == p[1..];
        assert added[k] == p;
      }
    }
    var all := paths + added;
    forall i, j | 0 <= i < j < |all| ensures all[i] != all[j] {
      if i < |paths| <= j {
        assert all[i] in paths && all[j] in added;
      }
    }
  }

  /** The filter's count is the number of outermost RED nodes: they can be listed, each once,
      in a list of that length. */
  lemma {:induction false} CountIsOutermostNodes(node: Json) returns (paths: seq<seq<nat>>)
    ensures |paths| == OutermostRed(node) && Distinct(paths)
    ensures forall p :: p in paths <==> OutermostRedAt(node, p)
    decreases node
  {
    paths := [];
    forall p ensures OutermostRedAt(node, p) ==> Child(node, p[0]).Some? {
      OutermostRedStep(node, p);
    }
    match node
    case Arr(items) =>
      for n := 0 to |items|
        invariant Lists(node, n, paths) && |paths| == OutermostRedItems(items[..n])
      {
        assert items[..n + 1][..n] == items[..n];
        var sub: seq<seq<nat>> := [[]];
        if !RedTagged(items[n]) {
          sub := CountIsOutermostNodes(items[n]);
        }
        ListsOneMore(node, n, paths, sub);
        paths := paths + Under(n, sub);
      }
      assert items[..|items|] == items;
    case Obj(fields) =>
      for n := 0 to |fields|
        invariant Lists(node, n, paths) && |paths| == OutermostRedFields(fields[..n])
      {
        assert fields[..n + 1][..n] == fields[..n];
        var sub: seq<seq<nat>> := [[]];
        if !RedTagged(fields[n].value) {
          sub := CountIsOutermostNodes(fields[n].value);
        }
        ListsOneMore(node, n, paths, sub);
        paths := paths + Under(n, sub);
      }
      assert fields[..|fields|] == fields;
    case _ =>
  }

  // ----- the gate -----

  /** The scan gives up, and reports a hit, below a fixed depth. */
  predicate Scan(node: Json, depth: nat)
    decreases node
  {
    || depth > MAX_SCAN_DEPTH
    || RedTagged(node)
    || (node.Arr? && exists v :: v in node.items && Scan(v, depth + 1))
    || (node.Obj? && exists f :: f in node.fields && Scan(f.value, depth + 1))
  }

  /** Some node of the tree lies at the given depth or deeper. */
  predicate Reaches(node: Json, depth: nat) {
    || depth == 0
    || (node.Arr? && exists v :: v in node.items && Reaches(v, depth - 1))
    || (node.Obj? && exists f :: f in node.fields && Reaches(f.value, depth - 1))
  }

  lemma {:induction false} ScanMeaning(node: Json, depth: nat)
    requires depth <= MAX_SCAN_DEPTH + 1
    ensures Scan(node, depth) <==> HasRed(node) || Reaches(node, MAX_SCAN_DEPTH + 1 - depth)
    decreases node
  {
    if depth <= MAX_SCAN_DEPTH {
      if node.Arr? {
        forall v | v in node.items
          ensures Scan(v, depth + 1) <==> HasRed(v) || Reaches(v, MAX_SCAN_DEPTH - depth)
        {
          ScanMeaning(v, depth + 1);
        }
      } else if node.Obj? {
        forall f | f in node.fields
          ensures Scan(f.value, depth + 1) <==> HasRed(f.value) || Reaches(f.value, MAX_SCAN_DEPTH - depth)
        {
          ScanMeaning(f.value, depth + 1);
        }
      }
    }
  }

  datatype Violation = TlpViolation

  const COUNT_KEY := "_tlp_stripped_count"

  /** An object that lost something says how much, unless it has such a field already. */
  function Stamped(cleaned: Json, stripped: nat): Json {
    if stripped > 0 && cleaned.Obj? && (forall f :: f in cleaned.fields ==> f.key != COUNT_KEY)
    then Obj(cleaned.fields + [Field(COUNT_KEY, Num(stripped as real))])
    else cleaned
  }

  lemma StampedHasNoRed(cleaned: Json, stripped: nat)
    ensures HasRed(Stamped(cleaned, stripped)) <==> HasRed(cleaned)
  {
    if Stamped(cleaned, stripped) != cleaned {
      var count := Field(COUNT_KEY, Num(stripped as real));
      assert !HasRed(count.value);
      assert forall f :: f in Stamped(cleaned, stripped).fields <==> f in cleaned.fields || f == count;
    }
  }

  function Filtered(result: Json): Json {
    Stamped(Strip(result), OutermostRed(result))
  }

  predicate HasKey(node: Json, key: string) {
    node.Obj? && exists i :: 0 <= i < |node.fields| && node.fields[i].key == key
  }

  lemma {:induction false} StripKeepsKeys(fields: seq<Field>, i: nat)
    requires i < |fields|
    ensures |StripFields(fields)| == |fields| && StripFields(fields)[i].key == fields[i].key
  {
    FieldsUnchanged(fields);
    FieldsUnchanged(fields[..|fields| - 1]);
    if i < |fields| - 1 {
      StripKeepsKeys(fields[..|fields| - 1], i);
    }
  }

  lemma StripKeepsKey(fields: seq<Field>, key: string)
    ensures HasKey(Obj(StripFields(fields)), key) <==> HasKey(Obj(fields), key)
  {
    FieldsUnchanged(fields);
    forall i | 0 <= i < |fields| ensures StripFields(fields)[i].key == fields[i].key {
      StripKeepsKeys(fields, i);
    }
  }

  /** An object without such a field has one afterwards exactly if it held something RED, and
      it says how many RED nodes are gone; a field of its own is kept. */
  lemma LossIsCounted(result: Json)
    requires result.Obj? && !RedTagged(result)
    ensures !HasKey(result, COUNT_KEY) ==> (HasKey(Filtered(result), COUNT_KEY) <==> HasRed(result))
    ensures !HasKey(result, COUNT_KEY) && HasRed(result) ==>
              Filtered(result).fields ==
              Strip(result).fields + [Field("_tlp_stripped_count", Num(OutermostRed(result) as real))]
    ensures HasKey(result, COUNT_KEY) || !HasRed(result) ==> Filtered(result) == Strip(result)
  {
    CountIsZeroIffUnchanged(result);
    StripKeepsKey(result.fields, COUNT_KEY);
    var cleaned := Strip(result);
    if HasRed(result) && !HasKey(result, COUNT_KEY) {
      assert forall f :: f in cleaned.fields ==> f.key != COUNT_KEY;
      assert Filtered(result).fields[|cleaned.fields|].key == COUNT_KEY;
    }
  }

  predicate Passes(result: Json, contextIsRed: bool) {
    !RedTagged(result) && !contextIsRed && !Reaches(Filtered(result), MAX_SCAN_DEPTH + 1)
  }

  /** Something without any RED tag, n levels deep. */
  function Nested(n: nat): Json {
    Obj([Field("value", if n == 0 then Null else Nested(n - 1))])
  }

  lemma {:induction false} NestedMeaning(n: nat, depth: nat)
    ensures !HasRed(Nested(n)) && (Reaches(Nested(n), depth) <==> depth <= n + 1)
  {
    var v := if n == 0 then Null else Nested(n - 1);
    assert Nested(n).fields == [Field("value", v)];
    if n > 0 {
      NestedMeaning(n - 1, if depth == 0 then 0 else depth - 1);
    }
  }

  /** The gate refuses it exactly if it is too deep to scan, RED or not. */
  lemma DeepResultsAreRefused(n: nat)
    ensures !HasRed(Nested(n)) && (Passes(Nested(n), false) <==> n + 1 <= MAX_SCAN_DEPTH)
  {
    NestedMeaning(n, MAX_SCAN_DEPTH + 1);
    CountIsZeroIffUnchanged(Nested(n));
  }

  /** A returning envelope passes exactly if it is not RED itself, the investigation is not,
      and what the filter leaves is shallow enough to scan; nothing RED passes. */
  method EnforceOnReturn(result: Json, contextIsRed: bool) returns (r: Result<Json, Violation>)
    ensures r == if Passes(result, contextIsRed) then Ok(Filtered(result)) else Err(TlpViolation)
    ensures r.Ok? ==> !HasRed(r.value)
    ensures r.Ok? && !HasRed(result) ==> r.value == result
  {
    if RedTagged(result) { return Err(TlpViolation); }
    var cleaned, stripped := StripRedItems(result);
    StrippedHasNoRed(result);
    CountIsZeroIffUnchanged(result);
    StampedHasNoRed(cleaned, stripped);
    cleaned := Stamped(cleaned, stripped);
    ScanMeaning(cleaned, 0);
    if contextIsRed { return Err(TlpViolation); }
    if Scan(cleaned, 0) { return Err(TlpViolation); }
    return Ok(cleaned);
  }
}
