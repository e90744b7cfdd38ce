/** The evidence chain: appending hash-linked records, verifying the chain, projecting it to a
    graph and replaying a prefix of it.

    The hash is a free constructor over what is hashed, the joined fields and the hash of the
    predecessor. So two hashes are equal only if those are. Whether the joined fields determine
    the fields is not assumed: they do exactly for a record without separators in its fields,
    whatever the fields of other records hold. */
module Lineage {
  import opened Results

  datatype Hash = Genesis | Digest(preimage: string, prev: Hash)

  datatype Record = Record(runId: string, nodeId: string, prevHash: Hash, linkHash: Hash,
                           inputHash: string, outputHash: string, timestamp: Stamp)

  const SEPARATOR: char := '\0'

  /** The ISO form of a time. */
  type Stamp = t: string | SEPARATOR !in t witness ""

  function Join(parts: seq<string>): string
    requires parts != []
  {
    if |parts| == 1 then parts[0] else parts[0] + [SEPARATOR] + Join(parts[1..])
  }

  /** The hashed fields in their fixed order. */
  function Parts(r: Record): seq<string> {
    [r.nodeId, r.inputHash, r.outputHash, r.runId, r.timestamp]
  }

  function LinkHashOf(r: Record): Hash {
    Digest(Join(Parts(r)), r.prevHash)
  }

  // ----- the specification of a chain -----

  function PrevOf(records: seq<Record>, i: nat): Hash
    requires i < |records|
  {
    if i == 0 then Genesis else records[i - 1].linkHash
  }

  predicate Links(records: seq<Record>, i: nat)
    requires i < |records|
  {
    records[i].prevHash == PrevOf(records, i) && records[i].linkHash == LinkHashOf(records[i])
  }

  predicate Intact(records: seq<Record>) {
    forall i :: 0 <= i < |records| ==> Links(records, i)
  }

  predicate FirstBad(records: seq<Record>, i: nat) {
    i < |records| && !Links(records, i) && forall j :: 0 <= j < i ==> Links(records, j)
  }

  /** The separator occurs in none of the hashed fields. */
  predicate Separable(r: Record) {
    forall p :: p in Parts(r) ==> SEPARATOR !in p
  }

  // ----- the operations -----

  method VerifyChain(records: seq<Record>) returns (intact: bool, brokenAt: Option<Hash>)
    ensures intact <==> Intact(records)
    ensures intact ==> brokenAt == None
    ensures !intact ==> exists i: nat :: FirstBad(records, i) && brokenAt == Some(records[i].linkHash)
  {
    var expectedPrev := Genesis;
    for i := 0 to |records|
      invariant forall j :: 0 <= j < i ==> Links(records, j)
      invariant expectedPrev == if i == 0 then Genesis else records[i - 1].linkHash
    {
      var rec := records[i];
      if rec.prevHash != expectedPrev || LinkHashOf(rec) != rec.linkHash {
        assert FirstBad(records, i);
        return false, Some(rec.linkHash);
      }
      expectedPrev := rec.linkHash;
    }
    return true, None;
  }

  datatype Node = Node(id: Hash, runId: string, nodeId: string, inputHash: string, outputHash: string,
                       timestamp: Stamp, sequence: nat)
  datatype Edge = Edge(source: Hash, target: Hash)
  datatype Graph = Graph(nodes: seq<Node>, edges: seq<Edge>, intact: bool, brokenAt: Option<Hash>)

  function NodeOf(r: Record, sequence: nat): Node {
    Node(r.linkHash, r.runId, r.nodeId, r.inputHash, r.outputHash, r.timestamp, sequence)
  }

  function NodesOf(records: seq<Record>): seq<Node> {
    seq(|records|, i requires 0 <= i < |records| => NodeOf(records[i], i))
  }

  /** One edge for every record that names a predecessor, in order. */
  function EdgesOf(records: seq<Record>): seq<Edge> {
    if records == [] then []
    else
      var last := records[|records| - 1];
      EdgesOf(records[..|records| - 1]) + if last.prevHash != Genesis then [Edge(last.prevHash, last.linkHash)] else []
  }

  /** What a node shows of the record at its position. */
  predicate Shows(n: Node, r: Record, position: nat) {
    && n.id == r.linkHash && n.sequence == position && n.runId == r.runId && n.nodeId == r.nodeId
    && n.inputHash == r.inputHash && n.outputHash == r.outputHash && n.timestamp == r.timestamp
  }

  method BuildLineageGraph(records: seq<Record>, verify: bool) returns (g: Graph)
    ensures g.nodes == NodesOf(records) && g.edges == EdgesOf(records)
    ensures |g.nodes| == |records| && forall i :: 0 <= i < |records| ==> Shows(g.nodes[i], records[i], i)
    ensures g.intact <==> !verify || Intact(records)
    ensures g.intact ==> g.brokenAt == None
    ensures !g.intact ==> exists i: nat :: FirstBad(records, i) && g.brokenAt == Some(records[i].linkHash)
  {
    var nodes: seq<Node>, edges: seq<Edge> := [], [];
    for i := 0 to |records|
      invariant nodes == NodesOf(records[..i]) && edges == EdgesOf(records[..i])
    {
      var rec := records[i];
      assert records[..i + 1][..i] == records[..i];
      nodes := nodes + [NodeOf(rec, i)];
      if rec.prevHash != Genesis { edges := edges + [Edge(rec.prevHash, rec.linkHash)]; }
    }
    assert records[..|records|] == records;
    var intact, brokenAt := true, None;
    if verify { intact, brokenAt := VerifyChain(records); }
    return Graph(nodes, edges, intact, brokenAt);
  }

  datatype KeyError = NoSuchRecord

  method ReplayTo(records: seq<Record>, linkHash: Hash) returns (r: Result<seq<Record>, KeyError>)
    ensures r.Ok? ==> r.value != [] && r.value <= records && r.value[|r.value| - 1].linkHash == linkHash
    ensures r.Ok? ==> forall i :: 0 <= i < |r.value| - 1 ==> records[i].linkHash != linkHash
    ensures r.Err? <==> forall i :: 0 <= i < |records| ==> records[i].linkHash != linkHash
  {
    var prefix: seq<Record> := [];
    for i := 0 to |records|
      invariant prefix == records[..i]
      invariant forall j :: 0 <= j < i ==> records[j].linkHash != linkHash
    {
      prefix := prefix + [records[i]];
      if records[i].linkHash == linkHash { return Ok(prefix); }
    }
    return Err(NoSuchRecord);
  }

  /** The middleware that writes the chain, one record per successful run of a node. */
  class EvidenceChain {
    var records: seq<Record>

    constructor ()
      ensures records == []
    {
      records := [];
    }

    method AfterRun(runId: string, nodeId: string, inputHash: string, outputHash: string, timestamp: Stamp)
      modifies this
      ensures |records| == |old(records)| + 1 && old(records) <= records
      ensures old(Intact(records)) ==> Intact(records)
      ensures var r := records[|old(records)|];
              r.runId == runId && r.nodeId == nodeId && r.inputHash == inputHash &&
              r.outputHash == outputHash && r.timestamp == timestamp && Links(records, |old(records)|)
    {
      var prevHash := if records != [] then records[|records| - 1].linkHash else Genesis;
      var draft := Record(runId, nodeId, prevHash, Genesis, inputHash, outputHash, timestamp);
      records := records + [draft.(linkHash := LinkHashOf(draft))];
      assert forall j :: 0 <= j < |old(records)| && old(Links(records, j)) ==> Links(records, j);
    }
  }

  // ----- joined fields determine the fields -----

  lemma SplitAtSeparator(x: string, u: string, y: string, v: string)
    requires SEPARATOR !in x && SEPARATOR !in y
    requires x + [SEPARATOR] + u == y + [SEPARATOR] + v
    ensures x == y && u == v
  {
    var s := x + [SEPARATOR] + u;
    assert s[|x|] == SEPARATOR && s[|y|] == SEPARATOR;
    forall i | 0 <= i < |x| ensures s[i] != SEPARATOR {
      assert s[i] == x[i] && x[i] in x;
    }
    forall i | 0 <= i < |y| ensures s[i] != SEPARATOR {
      assert s[i] == y[i] && y[i] in y;
    }
    assert |x| == |y|;
    assert x == s[..|x|] == y && u == s[|x| + 1..] == v;
  }

  /** How many separators a text holds. */
  function Separators(s: string): nat {
    if s == "" then 0 else (if s[0] == SEPARATOR then 1 else 0) + Separators(s[1..])
  }

  function SeparatorsIn(parts: seq<string>): nat {
    if parts == [] then 0 else Separators(parts[0]) + SeparatorsIn(parts[1..])
  }

  lemma {:induction false} SeparatorsOfConcat(a: string, b: string)
    ensures Separators(a + b) == Separators(a) + Separators(b)
  {
    if a == "" {
      assert a + b == b;
    } else {
      assert (a + b)[1..] == a[1..] + b;
      SeparatorsOfConcat(a[1..], b);
    }
  }

  lemma {:induction false} NoneIsZero(s: string)
    ensures Separators(s) == 0 <==> SEPARATOR !in s
  {
    if s != "" {
      NoneIsZero(s[1..]);
      assert s == [s[0]] + s[1..];
    }
  }

  lemma {:induction false} NoneInIsZero(parts: seq<string>)
    ensures SeparatorsIn(parts) == 0 <==> forall p :: p in parts ==> SEPARATOR !in p
  {
    if parts != [] {
      NoneIsZero(parts[0]);
      NoneInIsZero(parts[1..]);
      assert parts == [parts[0]] + parts[1..];
    }
  }

  /** Joining adds one separator for each field but one. */
  lemma {:induction false} SeparatorsOfJoin(parts: seq<string>)
    requires parts != []
    ensures Separators(Join(parts)) == SeparatorsIn(parts) + |parts| - 1
  {
    if |parts| == 1 {
      assert parts[1..] == [];
    } else {
      SeparatorsOfJoin(parts[1..]);
      SeparatorsOfConcat(parts[0] + [SEPARATOR], Join(parts[1..]));
      SeparatorsOfConcat(parts[0], [SEPARATOR]);
    }
  }

  /** Fields without the separator are determined by their join among all lists of as many
      fields. */
  lemma {:induction false} JoinIsInjective(p: seq<string>, q: seq<string>)
    requires p != [] && |p| == |q| && Join(p) == Join(q)
    requires forall s :: s in p ==> SEPARATOR !in s
    ensures p == q
  {
    SeparatorsOfJoin(p);
    SeparatorsOfJoin(q);
    NoneInIsZero(p);
    NoneInIsZero(q);
    if |p| > 1 {
      SplitAtSeparator(p[0], Join(p[1..]), q[0], Join(q[1..]));
      JoinIsInjective(p[1..], q[1..]);
      assert p == [p[0]] + p[1..] && q == [q[0]] + q[1..];
    }
  }

  lemma JoinTwo(a: string, b: string, rest: seq<string>)
    ensures Join([a, b] + rest) == a + [SEPARATOR] + Join([b] + rest)
  {
    assert ([a, b] + rest)[1..] == [b] + rest;
  }

  lemma JoinFirst(a: string, b: string, rest: seq<string>)
    ensures Join([a + [SEPARATOR] + b] + rest) == a + [SEPARATOR] + Join([b] + rest)
  {
    if rest != [] {
      assert ([a + [SEPARATOR] + b] + rest)[1..] == rest && ([b] + rest)[1..] == rest;
      assert (a + [SEPARATOR] + b) + [SEPARATOR] + Join(rest) == a + [SEPARATOR] + (b + [SEPARATOR] + Join(rest));
    }
  }

  lemma SplitField(s: string) returns (b: string, c: string)
    requires SEPARATOR in s
    ensures s == b + [SEPARATOR] + c
  {
    var i :| 0 <= i < |s| && s[i] == SEPARATOR;
    b, c := s[..i], s[i + 1..];
  }

  /** A field that holds the separator can trade characters with a neighbour. */
  lemma {:induction false} TradeWithNeighbour(p: seq<string>, k: nat) returns (q: seq<string>)
    requires |p| >= 2 && k < |p| && SEPARATOR in p[k]
    ensures |q| == |p| && q != p && Join(q) == Join(p)
    decreases k
  {
    var rest := p[2..];
    assert p == [p[0], p[1]] + rest;
    if k > 1 || (k == 1 && rest != []) {
      var tail := TradeWithNeighbour(p[1..], k - 1);
      q := [p[0]] + tail;
      assert q[1..] == tail;
    } else {
      var b, c := SplitField(p[k]);
      if k == 0 {
        q := [b, c + [SEPARATOR] + p[1]] + rest;
        JoinTwo(p[0], p[1], rest);
        JoinTwo(b, q[1], rest);
        JoinFirst(c, p[1], rest);
        var end := Join([p[1]] + rest);
        assert b + [SEPARATOR] + c + [SEPARATOR] + end == b + [SEPARATOR] + (c + [SEPARATOR] + end);
        assert q[1] != p[1];
      } else {
        q := [p[0] + [SEPARATOR] + b, c] + rest;
        JoinTwo(p[0], p[1], rest);
        JoinTwo(q[0], c, rest);
        JoinFirst(b, c, rest);
        var end := Join([c] + rest);
        assert p[0] + [SEPARATOR] + (b + [SEPARATOR] + end) == p[0] + [SEPARATOR] + b + [SEPARATOR] + end;
        assert q[0] != p[0];
      }
    }
  }

  /** The fields that may hold any text. */
  function FreeParts(r: Record): seq<string> {
    [r.nodeId, r.inputHash, r.outputHash, r.runId]
  }

  lemma {:induction false} JoinLast(p: seq<string>, last: string)
    requires p != []
    ensures Join(p + [last]) == Join(p) + ([SEPARATOR] + last)
  {
    var rest := p[1..];
    assert (p + [last])[1..] == rest + [last];
    if rest != [] {
      JoinLast(rest, last);
      assert p[0] + [SEPARATOR] + (Join(rest) + ([SEPARATOR] + last))
          == p[0] + [SEPARATOR] + Join(rest) + ([SEPARATOR] + last);
    } else {
      assert p[0] + [SEPARATOR] + last == p[0] + ([SEPARATOR] + last);
    }
  }

  /** The separator in any field, a node or run id for instance, gives another record, of the
      same time, the same link hash. */
  lemma SeparatorInFieldIsAmbiguous(r: Record) returns (s: Record)
    requires !Separable(r)
    ensures Parts(s) != Parts(r) && LinkHashOf(s) == LinkHashOf(r) && s.timestamp == r.timestamp
  {
    var p := FreeParts(r);
    assert Parts(r) == p + [r.timestamp];
    var k :| 0 <= k < 4 && SEPARATOR in p[k];
    var q := TradeWithNeighbour(p, k);
    s := r.(nodeId := q[0], inputHash := q[1], outputHash := q[2], runId := q[3]);
    assert FreeParts(s) == q && Parts(s) == q + [r.timestamp];
    JoinLast(p, r.timestamp);
    JoinLast(q, r.timestamp);
    assert Parts(s)[..4] == q && Parts(r)[..4] == p;
  }

  lemma HashDeterminesFields(r: Record, s: Record)
    requires Separable(r) && LinkHashOf(s) == LinkHashOf(r)
    ensures Parts(s) == Parts(r) && s.prevHash == r.prevHash
  {
    JoinIsInjective(Parts(r), Parts(s));
  }

  /** The hash of a record determines its fields and its predecessor exactly if none of its
      fields holds the separator. */
  lemma HashDeterminesFieldsIff(r: Record)
    ensures Separable(r) <==>
      forall s: Record :: LinkHashOf(s) == LinkHashOf(r) ==> Parts(s) == Parts(r) && s.prevHash == r.prevHash
  {
    if Separable(r) {
      forall s: Record | LinkHashOf(s) == LinkHashOf(r) ensures Parts(s) == Parts(r) && s.prevHash == r.prevHash {
        HashDeterminesFields(r, s);
      }
    } else {
      var s := SeparatorInFieldIsAmbiguous(r);
    }
  }

  /** A record without separators is the only one with its hash. */
  lemma HashDeterminesRecord(r: Record, s: Record)
    requires Separable(r)
    requires r.linkHash == LinkHashOf(r) && s.linkHash == LinkHashOf(s) && r.linkHash == s.linkHash
    ensures r == s
  {
    HashDeterminesFields(r, s);
    assert Parts(r)[0] == Parts(s)[0] && Parts(r)[1] == Parts(s)[1] && Parts(r)[2] == Parts(s)[2];
    assert Parts(r)[3] == Parts(s)[3] && Parts(r)[4] == Parts(s)[4];
  }

  // ----- tamper evidence -----

  ghost predicate AllSeparable(records: seq<Record>) {
    forall i :: 0 <= i < |records| ==> Separable(records[i])
  }

  function Depth(h: Hash): nat {
    if h.Genesis? then 0 else 1 + Depth(h.prev)
  }

  lemma {:induction false} DepthIsPosition(records: seq<Record>, i: nat)
    requires Intact(records) && i < |records|
    ensures Depth(records[i].linkHash) == i + 1
  {
    assert Links(records, i);
    if i > 0 {
      DepthIsPosition(records, i - 1);
    }
  }

  /** No two records of an intact chain have the same link hash. */
  lemma LinkHashesAreDistinct(records: seq<Record>, i: nat, j: nat)
    requires Intact(records) && i < j < |records|
    ensures records[i].linkHash != records[j].linkHash
  {
    DepthIsPosition(records, i);
    DepthIsPosition(records, j);
  }

  /** An intact chain without separators is the only one that ends in its last hash. So any
      other chain that keeps that hash, whatever its fields hold, is not intact. */
  lemma {:induction false} SameTipSameChain(a: seq<Record>, b: seq<Record>)
    requires Intact(a) && AllSeparable(a) && Intact(b)
    requires a != [] && b != [] && a[|a| - 1].linkHash == b[|b| - 1].linkHash
    ensures a == b
  {
    var m, n := |a| - 1, |b| - 1;
    assert Links(a, m) && Links(b, n);
    HashDeterminesRecord(a[m], b[n]);
    DepthIsPosition(a, m);
    DepthIsPosition(b, n);
    if m > 0 {
      PrefixIsIntact(a, m);
      PrefixIsIntact(b, n);
      SameTipSameChain(a[..m], b[..n]);
    }
    assert a == a[..m] + [a[m]] && b == b[..n] + [b[n]];
  }

  lemma PrefixIsIntact(records: seq<Record>, n: nat)
    requires Intact(records) && n <= |records|
    ensures Intact(records[..n])
    ensures AllSeparable(records) ==> AllSeparable(records[..n])
  {
    forall i | 0 <= i < n ensures Links(records[..n], i) {
      assert Links(records, i);
    }
  }

  /** Altering one record is reported there, or at its successor if the altered record is
      consistent in itself; only the last record can be exchanged unnoticed, for another
      consistent one. Of the later records exactly the next one can be invalidated, and is iff
      the altered record has another link hash. */
  lemma AlterationIsLocated(records: seq<Record>, i: nat, x: Record, altered: seq<Record>)
    requires Intact(records) && i < |records| && altered == records[i := x]
    requires x != records[i] && Separable(records[i])
    ensures !Links(altered, i) ==> FirstBad(altered, i)
    ensures Links(altered, i) && i + 1 < |records| ==> FirstBad(altered, i + 1)
    ensures Links(altered, i) && i + 1 == |records| ==> Intact(altered)
    ensures forall j :: i < j < |records| ==>
              (!Links(altered, j) <==> j == i + 1 && x.linkHash != records[i].linkHash)
  {
    forall j | 0 <= j < i || i + 1 < j < |records| ensures Links(altered, j) {
      assert Links(records, j) && altered[j] == records[j] && PrevOf(altered, j) == PrevOf(records, j);
    }
    if i + 1 < |records| {
      assert Links(records, i + 1) && altered[i + 1] == records[i + 1];
    }
    if Links(altered, i) {
      assert Links(records, i);
      if x.linkHash == records[i].linkHash {
        HashDeterminesRecord(records[i], x);
      }
    }
  }

  /** Leaving a record out is reported at its position, unless it was the last. */
  lemma OmissionIsLocated(records: seq<Record>, i: nat)
    requires Intact(records) && i + 1 < |records|
    ensures FirstBad(records[..i] + records[i + 1..], i)
  {
    var cut := records[..i] + records[i + 1..];
    forall j | 0 <= j < i ensures Links(cut, j) {
      assert Links(records, j) && cut[j] == records[j] && (j > 0 ==> cut[j - 1] == records[j - 1]);
    }
    assert Links(records, i) && Links(records, i + 1);
    assert cut[i] == records[i + 1];
    DepthIsPosition(records, i);
    if i > 0 {
      LinkHashesAreDistinct(records, i - 1, i);
    }
  }

  // ----- projection and replay -----

  lemma {:induction false} IntactEdges(records: seq<Record>, n: nat)
    requires Intact(records) && 1 <= n <= |records|
    ensures |EdgesOf(records[..n])| == n - 1
    ensures forall k :: 0 <= k < n - 1 ==>
              EdgesOf(records[..n])[k] == Edge(records[k].linkHash, records[k + 1].linkHash)
  {
    assert Links(records, n - 1);
    assert records[..n][..n - 1] == records[..n - 1];
    if n > 1 {
      assert Links(records, n - 2);
      IntactEdges(records, n - 1);
    } else {
      assert records[..0] == [];
    }
  }

  /** The graph of an intact chain is one simple path through all its nodes. */
  lemma ProjectionIsSimplePath(records: seq<Record>)
    requires Intact(records) && records != []
    ensures var nodes, edges := NodesOf(records), EdgesOf(records);
            && |nodes| == |records| && |edges| == |nodes| - 1
            && (forall k :: 0 <= k < |edges| ==> edges[k] == Edge(nodes[k].id, nodes[k + 1].id))
            && (forall i, j :: 0 <= i < j < |nodes| ==> nodes[i].id != nodes[j].id)
  {
    assert records[..|records|] == records;
    IntactEdges(records, |records|);
    forall i, j | 0 <= i < j < |records| ensures NodesOf(records)[i].id != NodesOf(records)[j].id {
      LinkHashesAreDistinct(records, i, j);
    }
  }

  /** What a replay of an intact chain returns is itself intact, and is the only intact chain
      that ends in the requested hash. */
  lemma ReplayIsTheOnlyHistory(records: seq<Record>, prefix: seq<Record>, other: seq<Record>, linkHash: Hash)
    requires Intact(records) && AllSeparable(records) && prefix != [] && prefix <= records
    requires prefix[|prefix| - 1].linkHash == linkHash
    requires Intact(other) && other != [] && other[|other| - 1].linkHash == linkHash
    ensures Intact(prefix) && other == prefix
  {
    assert prefix == records[..|prefix|];
    PrefixIsIntact(records, |prefix|);
    SameTipSameChain(prefix, other);
  }
}
