/** The attachment graph of static parameters: each parameter uses the value
    buffer of the parameter it is attached to (`use_value_of`, itself when
    detached), and each parameter lists the parameters attached to it
    (`attached_parameters`, the back-edges). Parameters are identified by
    number. A ghost rank that strictly decreases along `use_value_of`
    witnesses that attachment is acyclic, which is what makes the search
    for the buffer owner terminate. */
module Attachment {
  import opened Common

  type ParamId = nat

  /** The two link fields of a static parameter. */
  datatype Link = Link(useValueOf: ParamId, attachedParameters: seq<ParamId>)

  type Links = map<ParamId, Link>

  /** The links of `id` point at existing parameters. */
  ghost predicate LinkClosed(ls: Links, id: ParamId)
    requires id in ls
  {
    ls[id].useValueOf in ls && forall k :: 0 <= k < |ls[id].attachedParameters| ==> ls[id].attachedParameters[k] in ls
  }

  /** Every link points at an existing parameter. */
  ghost predicate Closed(ls: Links) {
    forall id {:trigger LinkClosed(ls, id)} :: id in ls ==> LinkClosed(ls, id)
  }

  /** The back-edges are exactly the inverse of the `use_value_of` edges to
      another parameter. */
  ghost predicate BackEdges(ls: Links) {
    forall a, b {:trigger BackEdge(ls, a, b)} :: a in ls && b in ls ==> BackEdge(ls, a, b)
  }

  /** `a` is in `b`'s back-edges exactly when it uses `b`'s value. */
  ghost predicate BackEdge(ls: Links, a: ParamId, b: ParamId)
    requires a in ls && b in ls
  {
    a in ls[b].attachedParameters <==> ls[a].useValueOf == b && a != b
  }

  ghost predicate DistinctBackEdges(ls: Links) {
    forall b :: b in ls ==> NoDuplicates(ls[b].attachedParameters)
  }

  /** The rank drops from `id` to the parameter whose buffer it uses. */
  ghost predicate RankDrops(ls: Links, rk: map<ParamId, nat>, id: ParamId)
    requires id in ls && ls.Keys <= rk.Keys
  {
    ls[id].useValueOf in ls && (ls[id].useValueOf != id ==> rk[ls[id].useValueOf] < rk[id])
  }

  /** The rank strictly decreases along `use_value_of`: no cycles. */
  ghost predicate Ranked(ls: Links, rk: map<ParamId, nat>) {
    ls.Keys <= rk.Keys && forall id {:trigger RankDrops(ls, rk, id)} :: id in ls ==> RankDrops(ls, rk, id)
  }

  ghost predicate Graph(ls: Links, rk: map<ParamId, nat>) {
    Closed(ls) && BackEdges(ls) && DistinctBackEdges(ls) && Ranked(ls, rk)
  }

  /** `y` is on the `use_value_of` chain that starts at `x` (`x` included). */
  ghost predicate OnChain(ls: Links, rk: map<ParamId, nat>, x: ParamId, y: ParamId)
    requires Ranked(ls, rk) && x in ls
    decreases rk[x]
  {
    x == y || (ls[x].useValueOf != x && assert RankDrops(ls, rk, x); OnChain(ls, rk, ls[x].useValueOf, y))
  }

  /** GetParameterWithBuffer: the end of the chain, the parameter that owns
      the buffer every parameter on the chain uses. */
  function Owner(ls: Links, ghost rk: map<ParamId, nat>, id: ParamId): (r: ParamId)
    requires Ranked(ls, rk) && id in ls
    decreases rk[id]
    ensures r in ls && ls[r].useValueOf == r && OnChain(ls, rk, id, r)
  {
    assert RankDrops(ls, rk, id);
    if ls[id].useValueOf == id then id else Owner(ls, rk, ls[id].useValueOf)
  }

  /** All parameters on one chain share the owner, hence the buffer. */
  lemma {:induction false} ChainSharesOwner(ls: Links, rk: map<ParamId, nat>, x: ParamId, y: ParamId)
    requires Ranked(ls, rk) && x in ls && y in ls && OnChain(ls, rk, x, y)
    decreases rk[x]
    ensures Owner(ls, rk, x) == Owner(ls, rk, y)
  {
    if x != y {
      assert RankDrops(ls, rk, x);
      ChainSharesOwner(ls, rk, ls[x].useValueOf, y);
    }
  }

  /** Following a chain only goes down in rank. */
  lemma {:induction false} ChainRankBelow(ls: Links, rk: map<ParamId, nat>, x: ParamId, y: ParamId)
    requires Ranked(ls, rk) && x in ls && OnChain(ls, rk, x, y)
    decreases rk[x]
    ensures y in ls && y in rk && rk[y] <= rk[x]
    ensures y != x ==> rk[y] < rk[x]
  {
    if x != y {
      assert RankDrops(ls, rk, x);
      ChainRankBelow(ls, rk, ls[x].useValueOf, y);
    }
  }

  // ---------------------------------------------------------------------------
  // Re-linking one parameter (the graph half of AttachTo)

  /** The back-edges of `x` after `id` is re-linked: `id` is removed from
      its old target's list and appended to the new target's list. */
  function AttachedAfter(ls: Links, id: ParamId, target: ParamId, x: ParamId): seq<ParamId>
    requires id in ls && x in ls
  {
    var o := ls[id].useValueOf;
    var s := if x == o && o != id then RemoveAll(ls[x].attachedParameters, id) else ls[x].attachedParameters;
    if x == target && target != id then s + [id] else s
  }

  /** The links after `id` is detached from its old target and attached to
      `target` (itself meaning detached). */
  function Relinked(ls: Links, id: ParamId, target: ParamId): (r: Links)
    requires id in ls
    ensures r.Keys == ls.Keys
  {
    map x | x in ls :: Link(if x == id then target else ls[x].useValueOf, AttachedAfter(ls, id, target, x))
  }

  /** The rank after re-linking: everything whose chain passes through `id`
      moves above the target. */
  ghost function Reranked(ls: Links, rk: map<ParamId, nat>, id: ParamId, target: ParamId): map<ParamId, nat>
    requires Ranked(ls, rk) && target in ls
  {
    map x | x in rk :: if x in ls && OnChain(ls, rk, x, id) then rk[x] + rk[target] + 1 else rk[x]
  }

  lemma RemoveAllMember(s: seq<ParamId>, x: ParamId, a: ParamId)
    requires a != x
    ensures a in RemoveAll(s, x) <==> a in s
  {
    var r := RemoveAll(s, x);
    if a in s {
      var i :| 0 <= i < |s| && s[i] == a;
      assert s[i] in r;
    }
    if a in r {
      var i :| 0 <= i < |r| && r[i] == a;
      assert r[i] in s;
    }
  }

  lemma AppendDistinct(s: seq<ParamId>, x: ParamId)
    requires NoDuplicates(s) && x !in s
    ensures NoDuplicates(s + [x])
  {
    forall i, j | 0 <= i < j < |s + [x]| ensures (s + [x])[i] != (s + [x])[j] {
      if j == |s| {
        assert (s + [x])[i] == s[i];
      } else {
        assert (s + [x])[i] == s[i] && (s + [x])[j] == s[j];
      }
    }
  }

  /** Membership in the back-edges after re-linking. */
  lemma RelinkedBackEdge(ls: Links, id: ParamId, target: ParamId, a: ParamId, b: ParamId)
    requires BackEdges(ls)
    requires id in ls && target in ls && a in ls && b in ls
    ensures var r := Relinked(ls, id, target);
      a in r[b].attachedParameters <==> r[a].useValueOf == b && a != b
  {
    var o := ls[id].useValueOf;
    assert BackEdge(ls, a, b) && BackEdge(ls, id, b);
    if b == o && o != id && a != id {
      RemoveAllMember(ls[b].attachedParameters, id, a);
    }
  }

  lemma RelinkedDistinct(ls: Links, id: ParamId, target: ParamId, b: ParamId)
    requires BackEdges(ls) && DistinctBackEdges(ls)
    requires id in ls && target in ls && b in ls
    ensures NoDuplicates(Relinked(ls, id, target)[b].attachedParameters)
  {
    var o := ls[id].useValueOf;
    var s := if b == o && o != id then RemoveAll(ls[b].attachedParameters, id) else ls[b].attachedParameters;
    if b == o && o != id {
      RemoveAllKeepsDistinct(ls[b].attachedParameters, id);
    }
    if b == target && target != id {
      assert BackEdge(ls, id, b);
      assert id !in s;
      AppendDistinct(s, id);
    }
  }

  lemma AttachedAfterClosed(ls: Links, id: ParamId, target: ParamId, x: ParamId)
    requires Closed(ls) && id in ls && target in ls && x in ls
    ensures forall k :: 0 <= k < |AttachedAfter(ls, id, target, x)| ==> AttachedAfter(ls, id, target, x)[k] in ls
  {
    var o := ls[id].useValueOf;
    assert LinkClosed(ls, x);
    var s := if x == o && o != id then RemoveAll(ls[x].attachedParameters, id) else ls[x].attachedParameters;
    forall k | 0 <= k < |s| ensures s[k] in ls {
      if x == o && o != id {
        assert s[k] in ls[x].attachedParameters;
      }
    }
  }

  lemma RelinkedClosed(ls: Links, id: ParamId, target: ParamId)
    requires Closed(ls) && id in ls && target in ls
    ensures Closed(Relinked(ls, id, target))
  {
    var r := Relinked(ls, id, target);
    forall x | x in r
      ensures r[x].useValueOf in r
      ensures forall k :: 0 <= k < |r[x].attachedParameters| ==> r[x].attachedParameters[k] in r
    {
      assert LinkClosed(ls, x);
      AttachedAfterClosed(ls, id, target, x);
      assert LinkClosed(r, x);
    }
  }

  lemma RelinkedRanked(ls: Links, rk: map<ParamId, nat>, id: ParamId, target: ParamId)
    requires Ranked(ls, rk) && id in ls && target in ls
    requires target == id || !OnChain(ls, rk, target, id)
    ensures Ranked(Relinked(ls, id, target), Reranked(ls, rk, id, target))
  {
    var r := Relinked(ls, id, target);
    var rk' := Reranked(ls, rk, id, target);
    forall y | y in r
      ensures y in rk' && r[y].useValueOf in r
      ensures r[y].useValueOf != y ==> r[y].useValueOf in rk' && rk'[r[y].useValueOf] < rk'[y]
    {
      assert RankDrops(ls, rk, y);
      var x := r[y].useValueOf;
      if y == id {
        assert OnChain(ls, rk, id, id);
        if target != id {
          assert rk'[target] == rk[target];
        }
      } else if x != y {
        assert OnChain(ls, rk, y, id) <==> OnChain(ls, rk, x, id);
      }
      assert RankDrops(r, rk', y);
    }
  }

  /** Re-linking keeps the graph well formed, provided the target's chain
      does not pass through `id` (which would close a cycle). */
  lemma RelinkPreservesGraph(ls: Links, rk: map<ParamId, nat>, id: ParamId, target: ParamId)
    requires Graph(ls, rk) && id in ls && target in ls
    requires target == id || !OnChain(ls, rk, target, id)
    ensures Graph(Relinked(ls, id, target), Reranked(ls, rk, id, target))
  {
    var r := Relinked(ls, id, target);
    RelinkedClosed(ls, id, target);
    forall a, b | a in r && b in r ensures BackEdge(r, a, b) {
      RelinkedBackEdge(ls, id, target, a, b);
    }
    forall b | b in r ensures NoDuplicates(r[b].attachedParameters) {
      RelinkedDistinct(ls, id, target, b);
    }
    RelinkedRanked(ls, rk, id, target);
  }

  /** A chain that avoids `id` is not affected by re-linking `id`. */
  lemma {:induction false} RelinkKeepsOtherChains(ls: Links, rk: map<ParamId, nat>, id: ParamId, target: ParamId, x: ParamId)
    requires Graph(ls, rk) && id in ls && target in ls && x in ls
    requires target == id || !OnChain(ls, rk, target, id)
    requires !OnChain(ls, rk, x, id)
    decreases rk[x]
    ensures Ranked(Relinked(ls, id, target), Reranked(ls, rk, id, target))
    ensures Owner(Relinked(ls, id, target), Reranked(ls, rk, id, target), x) == Owner(ls, rk, x)
  {
    RelinkPreservesGraph(ls, rk, id, target);
    var r := Relinked(ls, id, target);
    assert r[x].useValueOf == ls[x].useValueOf;
    assert RankDrops(ls, rk, x);
    if ls[x].useValueOf != x {
      RelinkKeepsOtherChains(ls, rk, id, target, ls[x].useValueOf);
    }
  }

  /** After re-linking, `id`'s buffer owner is the target's old owner. */
  lemma RelinkedOwner(ls: Links, rk: map<ParamId, nat>, id: ParamId, target: ParamId)
    requires Graph(ls, rk) && id in ls && target in ls
    requires target == id || !OnChain(ls, rk, target, id)
    ensures Ranked(Relinked(ls, id, target), Reranked(ls, rk, id, target))
    ensures Owner(Relinked(ls, id, target), Reranked(ls, rk, id, target), id) == (if target == id then id else Owner(ls, rk, target))
  {
    RelinkPreservesGraph(ls, rk, id, target);
    if target != id {
      RelinkKeepsOtherChains(ls, rk, id, target, target);
    }
  }

  /** After re-linking, `id` appears in the back-edges of its target only,
      and not at all when it was detached. */
  lemma RelinkedBackEdges(ls: Links, rk: map<ParamId, nat>, id: ParamId, target: ParamId)
    requires Graph(ls, rk) && id in ls && target in ls
    requires target == id || !OnChain(ls, rk, target, id)
    ensures Relinked(ls, id, target)[id].useValueOf == target
    ensures forall b :: b in ls ==>
              (id in Relinked(ls, id, target)[b].attachedParameters <==> b == target && target != id)
  {
    var r := Relinked(ls, id, target);
    forall b | b in ls ensures id in r[b].attachedParameters <==> b == target && target != id {
      RelinkedBackEdge(ls, id, target, id, b);
    }
  }

  // ---------------------------------------------------------------------------
  // A new parameter (the constructor): detached, nothing attached to it

  lemma AddedPreservesGraph(ls: Links, rk: map<ParamId, nat>, id: ParamId)
    requires Graph(ls, rk) && id !in ls
    ensures Graph(ls[id := Link(id, [])], rk[id := 0])
  {
    var r := ls[id := Link(id, [])];
    var rk' := rk[id := 0];
    forall x | x in r ensures LinkClosed(r, x) {
      if x != id {
        assert LinkClosed(ls, x);
      }
    }
    forall x | x in r ensures RankDrops(r, rk', x) {
      if x != id {
        assert RankDrops(ls, rk, x);
        assert LinkClosed(ls, x);
      }
    }
    forall a, b | a in r && b in r ensures BackEdge(r, a, b) {
      if a != id && b != id {
        assert BackEdge(ls, a, b);
      } else if b != id {
        assert LinkClosed(ls, b);
      } else if a != id {
        assert LinkClosed(ls, a);
      }
    }
  }

  /** Adding a parameter leaves every existing chain, hence every owner,
      as it was. */
  lemma {:induction false} AddedKeepsOwner(ls: Links, rk: map<ParamId, nat>, id: ParamId, x: ParamId)
    requires Graph(ls, rk) && id !in ls && x in ls
    decreases rk[x]
    ensures Ranked(ls[id := Link(id, [])], rk[id := 0])
    ensures Owner(ls[id := Link(id, [])], rk[id := 0], x) == Owner(ls, rk, x)
  {
    AddedPreservesGraph(ls, rk, id);
    assert RankDrops(ls, rk, x);
    if ls[x].useValueOf != x {
      AddedKeepsOwner(ls, rk, id, ls[x].useValueOf);
    }
  }

  /** A new parameter owns its buffer and every other owner stays. */
  lemma AddedOwners(ls: Links, rk: map<ParamId, nat>, id: ParamId)
    requires Graph(ls, rk) && id !in ls
    ensures Graph(ls[id := Link(id, [])], rk[id := 0])
    ensures Owner(ls[id := Link(id, [])], rk[id := 0], id) == id
    ensures forall x :: x in ls ==> Owner(ls[id := Link(id, [])], rk[id := 0], x) == Owner(ls, rk, x)
  {
    AddedPreservesGraph(ls, rk, id);
    forall x | x in ls ensures Owner(ls[id := Link(id, [])], rk[id := 0], x) == Owner(ls, rk, x) {
      AddedKeepsOwner(ls, rk, id, x);
    }
  }

  // ---------------------------------------------------------------------------
  // Closure over back-edges (GetAllAttachedParameters)

  /** Everything reachable from `id` over back-edges is exactly what has
      `id` on its chain; so a list that starts with `id`, is closed under
      back-edges and holds only such parameters holds all of them. */
  lemma {:induction false} ClosedListHoldsChain(ls: Links, rk: map<ParamId, nat>, id: ParamId, result: seq<ParamId>, x: ParamId)
    requires Graph(ls, rk) && x in ls && id in result
    requires forall k, j :: 0 <= k < |result| && result[k] in ls && 0 <= j < |ls[result[k]].attachedParameters| ==>
      ls[result[k]].attachedParameters[j] in result
    requires OnChain(ls, rk, x, id)
    decreases rk[x]
    ensures x in result
  {
    if x != id {
      assert RankDrops(ls, rk, x);
      var y := ls[x].useValueOf;
      ClosedListHoldsChain(ls, rk, id, result, y);
      var k :| 0 <= k < |result| && result[k] == y;
      assert BackEdge(ls, x, y);
      var j :| 0 <= j < |ls[y].attachedParameters| && ls[y].attachedParameters[j] == x;
    }
  }

  /** A duplicate-free list of parameters is no longer than the arena. */
  lemma {:induction false} DistinctBounded(s: seq<ParamId>, a: set<ParamId>)
    requires NoDuplicates(s) && forall k :: 0 <= k < |s| ==> s[k] in a
    ensures |s| <= |a|
  {
    if s != [] {
      var rest := s[1..];
      assert NoDuplicates(rest) by {
        forall i, j | 0 <= i < j < |rest| ensures rest[i] != rest[j] {
          assert rest[i] == s[i + 1] && rest[j] == s[j + 1];
        }
      }
      forall k | 0 <= k < |rest| ensures rest[k] in a - {s[0]} {
        assert rest[k] == s[k + 1];
      }
      DistinctBounded(rest, a - {s[0]});
    }
  }
}
