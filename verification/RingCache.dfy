/**
 The consistent-hash balancer and its cached ring. The cache is keyed by a sorted signature
 while the ring stores positions, so what makes the cache right is that every list passed in
 is an order-preserving part of one configured list.
 */
module RingCache {
  import opened Common
  import opened Signatures
  import opened HashRing
  import opened ConsistentHash
  import opened CacheRace
  import opened Filtering

  // ---------- order-preserving parts ----------

  predicate Sublist(a: seq<Node>, b: seq<Node>) {
    a == [] || (b != [] && ((a[0] == b[0] && Sublist(a[1..], b[1..])) || Sublist(a, b[1..])))
  }

  lemma {:induction false} SublistMembers(a: seq<Node>, b: seq<Node>)
    requires Sublist(a, b)
    ensures forall n :: n in a ==> n in b
  {
    if a != [] {
      assert b == [b[0]] + b[1..];
      if Sublist(a, b[1..]) {
        SublistMembers(a, b[1..]);
      } else {
        SublistMembers(a[1..], b[1..]);
        assert a == [a[0]] + a[1..];
      }
    }
  }

  lemma HeadOrTail(a: seq<Node>, b: seq<Node>)
    requires Sublist(a, b) && b != [] && DistinctIds(b)
    ensures b[0] in a ==> a[0] == b[0] && Sublist(a[1..], b[1..]) && b[0] !in a[1..]
    ensures b[0] !in a ==> Sublist(a, b[1..])
  {
    if b[0] in a {
      if Sublist(a, b[1..]) { SublistMembers(a, b[1..]); }
      SublistMembers(a[1..], b[1..]);
    }
  }

  lemma {:induction false} SameMembersSameList(a: seq<Node>, c: seq<Node>, b: seq<Node>)
    requires Sublist(a, b) && Sublist(c, b) && DistinctIds(b) && forall n :: n in a <==> n in c
    ensures a == c
  {
    if b != [] {
      HeadOrTail(a, b);
      HeadOrTail(c, b);
      if b[0] in a {
        assert a == [b[0]] + a[1..] && c == [b[0]] + c[1..];
        forall n ensures n in a[1..] <==> n in c[1..] {
          assert n in a[1..] <==> n in a && n != b[0];
          assert n in c[1..] <==> n in c && n != b[0];
        }
        SameMembersSameList(a[1..], c[1..], b[1..]);
      } else {
        SameMembersSameList(a, c, b[1..]);
      }
    }
  }

  // ---------- what the callers pass ----------

  lemma {:induction false} KeepIsSublist(keep: Node -> bool, nodes: seq<Node>, configured: seq<Node>)
    requires Sublist(nodes, configured)
    ensures Sublist(Kept(keep, nodes), configured)
  {
    if nodes != [] {
      if Sublist(nodes, configured[1..]) {
        KeepIsSublist(keep, nodes, configured[1..]);
      } else {
        KeepIsSublist(keep, nodes[1..], configured[1..]);
        if keep(nodes[0]) {
          assert Kept(keep, nodes)[1..] == Kept(keep, nodes[1..]);
        } else {
          assert Kept(keep, nodes) == Kept(keep, nodes[1..]);
        }
      }
    }
  }

  lemma {:induction false} SublistOfItself(nodes: seq<Node>)
    ensures Sublist(nodes, nodes)
  {
    if nodes != [] { SublistOfItself(nodes[1..]); }
  }

  function Enabled(nodes: seq<Node>): (r: seq<Node>)
    ensures forall n :: n in r <==> n in nodes && n.enabled
  {
    Kept((n: Node) => n.enabled, nodes)
  }

  /** The list the pool passes on: the healthy enabled nodes, or all nodes when there is none. */
  function Healthy(healthy: Node -> bool, configured: seq<Node>): (r: seq<Node>)
    ensures Sublist(r, configured)
    ensures forall n :: n in r ==> r == configured || (n.enabled && healthy(n))
    ensures (exists n :: n in configured && n.enabled && healthy(n)) ==>
              forall n :: n in r <==> n in configured && n.enabled && healthy(n)
  {
    SublistOfItself(configured);
    KeepIsSublist((n: Node) => n.enabled && healthy(n), configured, configured);
    var up := Kept((n: Node) => n.enabled && healthy(n), configured);
    if up == [] then configured else up
  }

  // ---------- several upstreams ----------

  function Concat(lists: seq<seq<Node>>): seq<Node> { if lists == [] then [] else lists[0] + Concat(lists[1..]) }

  lemma {:induction false} SublistOfMore(a: seq<Node>, b: seq<Node>, c: seq<Node>)
    requires Sublist(a, b)
    ensures Sublist(a, b + c)
  {
    if a != [] {
      assert (b + c)[1..] == b[1..] + c;
      if Sublist(a, b[1..]) { SublistOfMore(a, b[1..], c); } else { SublistOfMore(a[1..], b[1..], c); }
    }
  }

  lemma {:induction false} SublistOfLater(a: seq<Node>, b: seq<Node>, c: seq<Node>)
    requires Sublist(a, b)
    ensures Sublist(a, c + b)
  {
    if c == [] {
      assert c + b == b;
    } else {
      assert (c + b)[1..] == c[1..] + b;
      SublistOfLater(a, b, c[1..]);
    }
  }

  /** One balancer serves all upstreams: an order-preserving part of any upstream's list is one of all their
      lists put together. */
  lemma {:induction false} PartOfConcat(lists: seq<seq<Node>>, k: nat, nodes: seq<Node>)
    requires k < |lists| && Sublist(nodes, lists[k])
    ensures Sublist(nodes, Concat(lists))
  {
    if k == 0 {
      SublistOfMore(nodes, lists[0], Concat(lists[1..]));
    } else {
      PartOfConcat(lists[1..], k - 1, nodes);
      SublistOfLater(nodes, Concat(lists[1..]), lists[0]);
    }
  }

  // ---------- the signature decides the list ----------

  function Label(n: Node): string { Decimal(n.id) + [':'] + (n.address + [':'] + Signed(n.weight)) }

  function Labels(nodes: seq<Node>): (r: seq<string>)
    ensures |r| == |nodes| && forall i :: 0 <= i < |nodes| ==> r[i] == Label(nodes[i])
  {
    seq(|nodes|, i requires 0 <= i < |nodes| => Label(nodes[i]))
  }

  function SignatureFor(nodes: seq<Node>): string { Signature(Labels(nodes)) }

  /** A label tells the id, the address and the weight. */
  lemma LabelDecides(m: Node, n: Node)
    requires Label(m) == Label(n)
    ensures m.id == n.id && m.address == n.address && m.weight == n.weight
  {
    SplitAtFirst(Decimal(m.id), ':', m.address + [':'] + Signed(m.weight),
                 Decimal(n.id), n.address + [':'] + Signed(n.weight));
    DecimalInjective(m.id, n.id);
    SplitAtLast(m.address, ':', Signed(m.weight), n.address, Signed(n.weight));
    SignedInjective(m.weight, n.weight);
  }

  /** Lists the balancer builds rings for: non-empty order-preserving parts of the configured list. */
  ghost predicate InPlay(configured: seq<Node>, nodes: seq<Node>) { nodes != [] && Sublist(nodes, configured) }

  ghost predicate Configured(configured: seq<Node>) {
    DistinctIds(configured) && forall n :: n in configured ==> '|' !in n.address
  }

  lemma LabelBarFree(n: Node)
    requires '|' !in n.address
    ensures '|' !in Label(n)
  {
  }

  lemma LabelsBarFree(configured: seq<Node>, nodes: seq<Node>)
    requires Configured(configured) && Sublist(nodes, configured)
    ensures BarFree(Labels(nodes))
  {
    SublistMembers(nodes, configured);
    var labels := Labels(nodes);
    forall i | 0 <= i < |labels| ensures '|' !in labels[i] {
      assert nodes[i] in nodes;
      LabelBarFree(nodes[i]);
    }
  }

  lemma IdDecidesNode(configured: seq<Node>, m: Node, n: Node)
    requires DistinctIds(configured) && m in configured && n in configured && m.id == n.id
    ensures m == n
  {
    var k :| 0 <= k < |configured| && configured[k] == m;
    var l :| 0 <= l < |configured| && configured[l] == n;
    assert k == l;
  }

  lemma SameLabel(a: seq<Node>, b: seq<Node>, n: Node) returns (m: Node)
    requires multiset(Labels(a)) == multiset(Labels(b)) && n in a
    ensures m in b && Label(m) == Label(n)
  {
    var i :| 0 <= i < |a| && a[i] == n;
    var la, lb := Labels(a), Labels(b);
    assert la[i] in multiset(lb);
    var j :| 0 <= j < |lb| && lb[j] == la[i];
    m := b[j];
  }

  lemma SameLabelsSameMembers(configured: seq<Node>, a: seq<Node>, b: seq<Node>, n: Node)
    requires DistinctIds(configured) && Sublist(a, configured) && Sublist(b, configured)
    requires multiset(Labels(a)) == multiset(Labels(b)) && n in a
    ensures n in b
  {
    var m := SameLabel(a, b, n);
    LabelDecides(n, m);
    SublistMembers(a, configured);
    SublistMembers(b, configured);
    IdDecidesNode(configured, n, m);
  }

  /** Of the lists in play, no two have the same signature. */
  lemma SignatureDecidesList(configured: seq<Node>, a: seq<Node>, b: seq<Node>)
    requires Configured(configured) && InPlay(configured, a) && InPlay(configured, b)
    requires SignatureFor(a) == SignatureFor(b)
    ensures a == b
  {
    LabelsBarFree(configured, a);
    LabelsBarFree(configured, b);
    SignatureIff(Labels(a), Labels(b));
    forall n ensures n in a <==> n in b {
      if n in a { SameLabelsSameMembers(configured, a, b, n); }
      if n in b { SameLabelsSameMembers(configured, b, a, n); }
    }
    SameMembersSameList(a, b, configured);
  }

  // ---------- threads ----------

  ghost function RingCaching(p: Params): Caching<string, seq<Node>, Ring> {
    Caching(SignatureFor, nodes => RingOf(Claims(p, nodes)))
  }

  ghost function ListsInPlay(configured: seq<Node>): iset<seq<Node>> {
    iset nodes: seq<Node> | InPlay(configured, nodes)
  }

  lemma SameSignatureSameList(c: Caching<string, seq<Node>, Ring>, configured: seq<Node>, a: seq<Node>, b: seq<Node>)
    requires c.sig == SignatureFor && c.sig(a) == c.sig(b)
    requires Configured(configured) && a in ListsInPlay(configured) && b in ListsInPlay(configured)
    ensures a == b
  {
    SignatureDecidesList(configured, a, b);
  }

  lemma BuildingDecides(c: Caching<string, seq<Node>, Ring>, configured: seq<Node>, lists: iset<seq<Node>>)
    requires c.sig == SignatureFor && Configured(configured) && lists == ListsInPlay(configured)
    ensures Decides(c, lists)
  {
    forall a, b | a in lists && b in lists && c.sig(a) == c.sig(b) ensures c.build(a) == c.build(b) {
      SameSignatureSameList(c, configured, a, b);
    }
  }

  /** Any number of threads, any interleaving of lookups, builds and writes, from an empty cache: every
      finished call has the ring a fresh build of its own list gives. */
  lemma CachedIsFresh(p: Params, configured: seq<Node>, start: System<string, seq<Node>, Ring>,
                      actions: seq<Action<seq<Node>>>, th: Thread<seq<Node>, Ring>)
    requires Configured(configured) && Quiet(start)
    requires forall a :: a in actions && a.Call? ==> InPlay(configured, a.list)
    requires th in Run(RingCaching(p), start, actions).threads && th.Done?
    ensures IsRing(Claims(p, th.list), th.got)
  {
    var c, lists := RingCaching(p), ListsInPlay(configured);
    BuildingDecides(c, configured, lists);
    assert Inv(c, lists, start);
    EveryCallIsFresh(c, lists, start, actions);
  }

  // ---------- the balancer ----------

  datatype Failure = NoEnabledNodes

  class Balancer {
    const p: Params
    ghost const configured: seq<Node>
    var cache: Option<Entry<string, Ring>>

    ghost predicate Valid() reads this {
      Configured(configured) &&
      (cache.Some? ==>
        exists l ::
          InPlay(configured, l) && SignatureFor(l) == cache.value.sig && IsRing(Claims(p, l), cache.value.built))
    }

    constructor (hash: string -> nat, vnodes: nat, ghost nodes: seq<Node>)
      requires Configured(nodes)
      ensures Valid() && configured == nodes && p == Params(hash, AtLeastOne(vnodes)) && cache == None
    {
      p := Params(hash, AtLeastOne(vnodes));
      configured := nodes;
      cache := None;
    }

    /** The choice is the one a fresh ring gives, whatever was asked before. */
    method Select(nodes: seq<Node>, key: Option<string>) returns (r: Result<Node, Failure>)
      requires Valid() && Sublist(nodes, configured)
      modifies `cache
      ensures Valid()
      ensures r.Err? <==> forall n :: n in nodes ==> !n.enabled
      ensures r.Ok? ==> r.value in nodes && r.value.enabled && Enabled(nodes) != []
      ensures r.Ok? && (key.None? || key.value == "") ==> r.value == Enabled(nodes)[0]
      ensures r.Ok? && key.Some? && key.value != "" ==>
                exists i: nat ::
                  && Chosen(Claims(p, Enabled(nodes)), p.hash(key.value), i)
                  && i < |Enabled(nodes)| && r.value == Enabled(nodes)[i]
    {
      var enabled := Enabled(nodes);
      if enabled == [] {
        assert forall n :: n in nodes ==> n !in enabled;
        return Err(NoEnabledNodes);
      }
      assert enabled[0] in enabled;
      if key.None? || key.value == "" { return Ok(enabled[0]); }
      var ring := RingFor(nodes, enabled);
      var h := p.hash(key.value);
      var k := Lookup(ring, h);
      ghost var claims := Claims(p, enabled);
      assert IsRing(claims, ring) && IsClockwise(ring.Keys, h, k);
      assert Chosen(claims, h, ring[k]);
      r := Ok(enabled[ring[k]]);
    }

    method RingFor(nodes: seq<Node>, enabled: seq<Node>) returns (ring: Ring)
      requires Valid() && Sublist(nodes, configured) && enabled == Enabled(nodes) && enabled != []
      modifies `cache
      ensures Valid() && IsRing(Claims(p, enabled), ring) && ring != map[]
    {
      KeepIsSublist((n: Node) => n.enabled, nodes, configured);
      var sig := SignatureFor(enabled);
      if Hits(cache, sig) {
        ring := cache.value.built;
        ghost var l :| InPlay(configured, l) && SignatureFor(l) == sig && IsRing(Claims(p, l), ring);
        SignatureDecidesList(configured, l, enabled);
        RingNotEmpty(p, enabled, ring);
      } else {
        ring := BuildRing(p, enabled);
        assert InPlay(configured, enabled);
        cache := Some(Entry(sig, ring));
      }
    }
  }

  lemma RingNotEmpty(p: Params, nodes: seq<Node>, ring: Ring)
    requires nodes != [] && IsRing(Claims(p, nodes), ring)
    ensures ring != map[]
  {
    var count := PointCount(p.vnodes, nodes[0].weight, Heaviest(nodes));
    assert p.hash(PointKey(nodes[0], count - 1)) in Points(p, nodes[0], count);
    assert p.hash(PointKey(nodes[0], count - 1)) in Claims(p, nodes)[0];
    assert p.hash(PointKey(nodes[0], count - 1)) in ring;
  }
}
