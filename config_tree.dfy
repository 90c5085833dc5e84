/** The XML document of a configuration file and the lookup of a
    slash-separated entry in it (tConfigFile::GetEntryImplementation).

    A node of the document is addressed by its index path from the root.
    `Lookup` is the specification of the lookup; the method
    `GetEntryImplementation` is the loop the source runs and is proved equal
    to it. The lemmas characterise `Lookup` independently: it returns the
    first path in document order whose chain of entry names spells the entry. */
module ConfigTree {
  import opened Common

  /** Element name of an inner entry of the configuration tree */
  const BranchName: string := "node"
  /** Element name of a leaf entry, the one that holds a value */
  const LeafName: string := "value"

  /** An XML element: its tag, its optional "name" attribute, its text content
      and its child elements. */
  datatype XmlNode = XmlNode(element: string, name: Option<string>, text: string, children: seq<XmlNode>)

  /** Index path from a node to one of its descendants ([] is the node itself). */
  type Path = seq<nat>

  /** The lookup only considers "node" and "value" elements that carry a
      name attribute; an element whose name cannot be read is skipped. */
  predicate IsEntryElement(n: XmlNode) {
    (n.element == BranchName || n.element == LeafName) && n.name.Some?
  }

  /** What the lookup sees of an element: its name if it is an entry element. */
  function LabelOf(n: XmlNode): Option<string> {
    if IsEntryElement(n) then Some(n.name.value) else None
  }

  /** `entry.compare(i, name.length(), name) == 0` */
  predicate NameAt(entry: string, i: nat, name: string) {
    i + |name| <= |entry| && entry[i..i + |name|] == name
  }

  /** A single '/' at the current position is skipped before matching. */
  function SkipSlash(entry: string, i: nat): nat
    requires i < |entry|
  {
    if entry[i] == '/' then i + 1 else i
  }

  // ---------------------------------------------------------------------------
  // Paths

  ghost predicate ValidPath(t: XmlNode, p: Path)
    decreases p
  {
    p == [] || (p[0] < |t.children| && ValidPath(t.children[p[0]], p[1..]))
  }

  function At(t: XmlNode, p: Path): XmlNode
    requires ValidPath(t, p)
    decreases p
  {
    if p == [] then t else At(t.children[p[0]], p[1..])
  }

  /** Labels of the nodes visited along `p`, excluding `t` itself. */
  ghost function Labels(t: XmlNode, p: Path): (r: seq<Option<string>>)
    requires ValidPath(t, p)
    ensures |r| == |p|
    decreases p
  {
    if p == [] then [] else [LabelOf(t.children[p[0]])] + Labels(t.children[p[0]], p[1..])
  }

  /** Document (pre-)order: `q` comes before `p`. */
  ghost predicate Precedes(q: Path, p: Path)
    decreases p
  {
    if q == [] then p != []
    else if p == [] then false
    else q[0] < p[0] || (q[0] == p[0] && Precedes(q[1..], p[1..]))
  }

  // ---------------------------------------------------------------------------
  // Specification of the lookup

  /** The node (as a path below `node`) that `entry[index..]` denotes, or None.
      Mirrors GetEntryImplementation: one leading '/' is skipped, then the
      children are searched in order. */
  function Lookup(entry: string, node: XmlNode, index: nat): (r: Option<Path>)
    decreases node, 1
    ensures r.Some? ==> r.value != [] && ValidPath(node, r.value)
  {
    if index >= |entry| then None
    else SearchChildren(entry, node, SkipSlash(entry, index), 0)
  }

  /** Search of `node.children[k..]` for the entry continuing at `i`. */
  function SearchChildren(entry: string, node: XmlNode, i: nat, k: nat): (r: Option<Path>)
    requires i <= |entry|
    decreases node, 0, |node.children| - k
    ensures r.Some? ==> r.value != [] && ValidPath(node, r.value)
  {
    if k >= |node.children| then None
    else
      match ChildMatch(entry, node.children[k], i)
      case Some(p) => assert ([k] + p)[1..] == p; Some([k] + p)
      case None => SearchChildren(entry, node, i, k + 1)
  }

  /** Whether `child` itself ([]) or a node below it is the entry continuing
      at `i`: its name must follow at `i`, and then either the entry ends or
      a '/' follows and the lookup descends into `child`. */
  function ChildMatch(entry: string, child: XmlNode, i: nat): (r: Option<Path>)
    requires i <= |entry|
    decreases child, 2
    ensures r.Some? ==> ValidPath(child, r.value)
  {
    if IsEntryElement(child) && NameAt(entry, i, child.name.value) then
      var m := i + |child.name.value|;
      if m == |entry| then Some([])
      else if entry[m] == '/' then Lookup(entry, child, m + 1)
      else None
    else None
  }

  /** The lookup as the source writes it: a loop over the children with a
      recursive descent once a name and the following '/' match. */
  method GetEntryImplementation(entry: string, node: XmlNode, index: nat) returns (r: Option<Path>)
    decreases node
    ensures r == Lookup(entry, node, index)
  {
    if index >= |entry| {
      return None;
    }
    var i := index;
    if entry[i] == '/' {
      i := i + 1;
    }
    var k := 0;
    while k < |node.children|
      invariant k <= |node.children|
      invariant Lookup(entry, node, index) == SearchChildren(entry, node, i, k)
    {
      var child := node.children[k];
      if IsEntryElement(child) {
        var name := child.name.value;
        if NameAt(entry, i, name) {
          var m := i + |name|;
          if m != |entry| {
            if entry[m] == '/' {
              var sub := GetEntryImplementation(entry, child, m + 1);
              if sub.Some? {
                return Some([k] + sub.value);
              }
            }
          } else {
            assert [k] + [] == [k];
            return Some([k]);
          }
        }
      }
      k := k + 1;
    }
    return None;
  }

  // ---------------------------------------------------------------------------
  // Independent characterisation: walking a chain of labels along the entry

  /** Consumes `entry` from `i` along the labels `ls`; the index where the
      last name ends, or None when the chain does not spell the entry. */
  ghost function Walk(ls: seq<Option<string>>, entry: string, i: nat): Option<nat>
    decreases ls, 1
  {
    if ls == [] then Some(i)
    else if i >= |entry| then None
    else Step(ls, entry, SkipSlash(entry, i))
  }

  /** Walk after the optional leading slash has been skipped. */
  ghost function Step(ls: seq<Option<string>>, entry: string, j: nat): Option<nat>
    requires ls != []
    decreases ls, 0
  {
    if ls[0].None? || !NameAt(entry, j, ls[0].value) then None
    else
      var m := j + |ls[0].value|;
      if |ls| == 1 then Some(m)
      else if m < |entry| && entry[m] == '/' then Walk(ls[1..], entry, m + 1)
      else None
  }

  /** The path `p` below `t` spells exactly `entry[i..]`. */
  ghost predicate Resolves(t: XmlNode, p: Path, entry: string, i: nat) {
    ValidPath(t, p) && p != [] && Walk(Labels(t, p), entry, i) == Some(|entry|)
  }

  ghost predicate StepResolves(t: XmlNode, p: Path, entry: string, j: nat) {
    ValidPath(t, p) && p != [] && Step(Labels(t, p), entry, j) == Some(|entry|)
  }

  /** Unfolding of StepResolves at the first child of the path. */
  lemma StepResolvesHead(t: XmlNode, q: Path, entry: string, j: nat)
    requires ValidPath(t, q) && q != []
    ensures StepResolves(t, q, entry, j) <==>
      var c := t.children[q[0]];
      IsEntryElement(c) && NameAt(entry, j, c.name.value) &&
      var m := j + |c.name.value|;
      if |q| == 1 then m == |entry|
      else m < |entry| && entry[m] == '/' && Resolves(c, q[1..], entry, m + 1)
  {
    var c := t.children[q[0]];
    assert Labels(t, q) == [LabelOf(c)] + Labels(c, q[1..]);
    assert Labels(t, q)[1..] == Labels(c, q[1..]);
  }

  lemma ChildMatchSpec(entry: string, t: XmlNode, j: nat, k: nat)
    requires j <= |entry| && k < |t.children|
    decreases t, 0, 0
    ensures var r := ChildMatch(entry, t.children[k], j);
      r.Some? ==> StepResolves(t, [k] + r.value, entry, j)
    ensures var r := ChildMatch(entry, t.children[k], j);
      r.Some? ==> forall q :: StepResolves(t, q, entry, j) && q[0] == k ==> !Precedes(q, [k] + r.value)
    ensures var r := ChildMatch(entry, t.children[k], j);
      r.None? ==> forall q :: StepResolves(t, q, entry, j) ==> q[0] != k
  {
    var c := t.children[k];
    if IsEntryElement(c) && NameAt(entry, j, c.name.value) {
      var m := j + |c.name.value|;
      if m == |entry| {
        ChildMatchWhole(entry, t, j, k);
      } else if entry[m] == '/' {
        LookupSpec(entry, c, m + 1);
        ChildMatchDescend(entry, t, j, k, m + 1);
      } else {
        ChildMatchNone(entry, t, j, k);
      }
    } else {
      ChildMatchNone(entry, t, j, k);
    }
  }

  /** The child's name ends the entry: the child itself is the match. */
  lemma ChildMatchWhole(entry: string, t: XmlNode, j: nat, k: nat)
    requires j <= |entry| && k < |t.children|
    requires IsEntryElement(t.children[k]) && NameAt(entry, j, t.children[k].name.value)
    requires j + |t.children[k].name.value| == |entry|
    ensures StepResolves(t, [k], entry, j)
    ensures forall q :: StepResolves(t, q, entry, j) && q[0] == k ==> !Precedes(q, [k])
  {
    StepResolvesHead(t, [k], entry, j);
    forall q | StepResolves(t, q, entry, j) && q[0] == k ensures !Precedes(q, [k]) {
      assert Precedes(q, [k]) ==> Precedes(q[1..], []);
    }
  }

  /** The child's name is followed by '/': the match is the lookup inside the child. */
  lemma ChildMatchDescend(entry: string, t: XmlNode, j: nat, k: nat, i: nat)
    requires j <= |entry| && k < |t.children|
    requires IsEntryElement(t.children[k]) && NameAt(entry, j, t.children[k].name.value)
    requires i == j + |t.children[k].name.value| + 1 && i <= |entry|
    requires entry[i - 1] == '/'
    requires var c := t.children[k]; var r := Lookup(entry, c, i);
      (r.Some? ==> Resolves(c, r.value, entry, i)) &&
      (r.None? ==> forall q :: !Resolves(c, q, entry, i)) &&
      (r.Some? ==> forall q :: Resolves(c, q, entry, i) ==> !Precedes(q, r.value))
    ensures var r := ChildMatch(entry, t.children[k], j);
      r.Some? ==> StepResolves(t, [k] + r.value, entry, j)
    ensures var r := ChildMatch(entry, t.children[k], j);
      r.Some? ==> forall q :: StepResolves(t, q, entry, j) && q[0] == k ==> !Precedes(q, [k] + r.value)
    ensures var r := ChildMatch(entry, t.children[k], j);
      r.None? ==> forall q :: StepResolves(t, q, entry, j) ==> q[0] != k
  {
    if ChildMatch(entry, t.children[k], j).Some? {
      DescendFound(entry, t, j, k, i);
    } else {
      DescendMissing(entry, t, j, k, i);
    }
  }

  /** The descent found a path: it resolves, and nothing through the same
      child precedes it. */
  lemma DescendFound(entry: string, t: XmlNode, j: nat, k: nat, i: nat)
    requires j <= |entry| && k < |t.children|
    requires IsEntryElement(t.children[k]) && NameAt(entry, j, t.children[k].name.value)
    requires i == j + |t.children[k].name.value| + 1 && i <= |entry|
    requires entry[i - 1] == '/'
    requires var c := t.children[k]; var r := Lookup(entry, c, i);
      r.Some? && Resolves(c, r.value, entry, i) && forall q :: Resolves(c, q, entry, i) ==> !Precedes(q, r.value)
    ensures var r := ChildMatch(entry, t.children[k], j);
      r.Some? && StepResolves(t, [k] + r.value, entry, j)
      && forall q :: StepResolves(t, q, entry, j) && q[0] == k ==> !Precedes(q, [k] + r.value)
  {
    var r := ChildMatch(entry, t.children[k], j);
    var p := [k] + r.value;
    assert p[1..] == r.value;
    StepResolvesHead(t, p, entry, j);
    forall q | StepResolves(t, q, entry, j) && q[0] == k ensures !Precedes(q, p) {
      StepResolvesHead(t, q, entry, j);
    }
  }

  /** The descent found nothing: no path through the child resolves. */
  lemma DescendMissing(entry: string, t: XmlNode, j: nat, k: nat, i: nat)
    requires j <= |entry| && k < |t.children|
    requires IsEntryElement(t.children[k]) && NameAt(entry, j, t.children[k].name.value)
    requires i == j + |t.children[k].name.value| + 1 && i <= |entry|
    requires entry[i - 1] == '/'
    requires var c := t.children[k]; Lookup(entry, c, i).None? && forall q :: !Resolves(c, q, entry, i)
    ensures ChildMatch(entry, t.children[k], j).None?
    ensures forall q :: StepResolves(t, q, entry, j) ==> q[0] != k
  {
    forall q | StepResolves(t, q, entry, j) ensures q[0] != k {
      StepResolvesHead(t, q, entry, j);
    }
  }

  /** The child's name does not lead into the entry: nothing below it matches. */
  lemma ChildMatchNone(entry: string, t: XmlNode, j: nat, k: nat)
    requires j <= |entry| && k < |t.children|
    requires var c := t.children[k];
      !(IsEntryElement(c) && NameAt(entry, j, c.name.value)) ||
      (j + |c.name.value| < |entry| && entry[j + |c.name.value|] != '/')
    ensures ChildMatch(entry, t.children[k], j).None?
    ensures forall q :: StepResolves(t, q, entry, j) ==> q[0] != k
  {
    forall q | StepResolves(t, q, entry, j) ensures q[0] != k {
      StepResolvesHead(t, q, entry, j);
    }
  }

  lemma {:induction false} SearchChildrenSpec(entry: string, t: XmlNode, j: nat, k: nat)
    requires j <= |entry|
    decreases t, 0, |t.children| - k
    ensures var r := SearchChildren(entry, t, j, k);
      r.Some? ==> StepResolves(t, r.value, entry, j) && r.value[0] >= k
    ensures var r := SearchChildren(entry, t, j, k);
      r.None? ==> forall q :: StepResolves(t, q, entry, j) ==> q[0] < k
    ensures var r := SearchChildren(entry, t, j, k);
      r.Some? ==> forall q :: StepResolves(t, q, entry, j) && q[0] >= k ==> !Precedes(q, r.value)
  {
    if k < |t.children| {
      ChildMatchSpec(entry, t, j, k);
      SearchChildrenSpec(entry, t, j, k + 1);
      var here := ChildMatch(entry, t.children[k], j);
      if here.Some? {
        var p := [k] + here.value;
        forall q | StepResolves(t, q, entry, j) && q[0] >= k ensures !Precedes(q, p) {
        }
      }
    }
  }

  /** `Lookup` returns a path that spells the entry; it returns None only when
      no path does; and no spelling path comes before the one it returns. */
  lemma {:induction false} LookupSpec(entry: string, t: XmlNode, i: nat)
    decreases t, 1
    ensures var r := Lookup(entry, t, i);
      r.Some? ==> Resolves(t, r.value, entry, i)
    ensures var r := Lookup(entry, t, i);
      r.None? ==> forall q :: !Resolves(t, q, entry, i)
    ensures var r := Lookup(entry, t, i);
      r.Some? ==> forall q :: Resolves(t, q, entry, i) ==> !Precedes(q, r.value)
  {
    if i < |entry| {
      var j := SkipSlash(entry, i);
      SearchChildrenSpec(entry, t, j, 0);
      forall q | ValidPath(t, q) && q != []
        ensures Resolves(t, q, entry, i) <==> StepResolves(t, q, entry, j)
      {
        assert Labels(t, q) != [];
      }
    } else {
      forall q | ValidPath(t, q) && q != [] ensures !Resolves(t, q, entry, i) {
        assert Labels(t, q) != [];
      }
    }
  }

  /** Two different non-empty paths are always ordered one way or the other. */
  lemma {:induction false} PrecedesTotal(p: Path, q: Path)
    requires p != q
    ensures Precedes(p, q) || Precedes(q, p)
    decreases p
  {
    if p != [] && q != [] && p[0] == q[0] {
      assert p == [p[0]] + p[1..] && q == [q[0]] + q[1..];
      PrecedesTotal(p[1..], q[1..]);
    }
  }

  /** When exactly one path spells the entry, the lookup finds it. */
  lemma LookupUnique(entry: string, t: XmlNode, i: nat, p: Path)
    requires Resolves(t, p, entry, i)
    requires forall q :: Resolves(t, q, entry, i) ==> q == p
    ensures Lookup(entry, t, i) == Some(p)
  {
    LookupSpec(entry, t, i);
  }

  // ---------------------------------------------------------------------------
  // The lookup only depends on the rest of the entry

  lemma {:induction false} SearchChildrenShift(pre: string, entry: string, t: XmlNode, j: nat, k: nat)
    requires j <= |entry|
    decreases t, 0, |t.children| - k
    ensures SearchChildren(pre + entry, t, j + |pre|, k) == SearchChildren(entry, t, j, k)
  {
    if k < |t.children| {
      var c := t.children[k];
      var e := pre + entry;
      SearchChildrenShift(pre, entry, t, j, k + 1);
      if IsEntryElement(c) {
        var n := c.name.value;
        if j + |n| <= |entry| {
          assert e[j + |pre|..j + |pre| + |n|] == entry[j..j + |n|];
          var m := j + |n|;
          if m < |entry| {
            assert e[m + |pre|] == entry[m];
            LookupShift(pre, entry, c, m + 1);
          }
        }
      }
    }
  }

  lemma {:induction false} LookupShift(pre: string, entry: string, t: XmlNode, i: nat)
    decreases t, 1
    ensures Lookup(pre + entry, t, i + |pre|) == Lookup(entry, t, i)
  {
    if i < |entry| {
      assert (pre + entry)[i + |pre|] == entry[i];
      SearchChildrenShift(pre, entry, t, SkipSlash(entry, i), 0);
    }
  }

  /** An absolute entry "/a/b" denotes the same node as the relative "a/b":
      the leading slash is skipped. Only one slash is skipped, so the
      relative part must not start with another one. */
  lemma LeadingSlashIgnored(entry: string, t: XmlNode)
    requires entry != [] && entry[0] != '/'
    ensures Lookup("/" + entry, t, 0) == Lookup(entry, t, 0)
  {
    SearchChildrenShift("/", entry, t, 0, 0);
  }

  // ---------------------------------------------------------------------------
  // Paths and labels along concatenated paths

  lemma {:induction false} PathConcat(t: XmlNode, a: Path, b: Path)
    decreases a
    ensures ValidPath(t, a + b) <==> (ValidPath(t, a) && ValidPath(At(t, a), b))
    ensures ValidPath(t, a + b) ==>
      At(t, a + b) == At(At(t, a), b) && Labels(t, a + b) == Labels(t, a) + Labels(At(t, a), b)
  {
    if a != [] {
      assert (a + b)[0] == a[0] && (a + b)[1..] == a[1..] + b;
      if a[0] < |t.children| {
        PathConcat(t.children[a[0]], a[1..], b);
      }
    } else {
      assert a + b == b;
    }
  }

  /** Walking a chain is walking its first part, one '/', then the rest. */
  lemma {:induction false} WalkAppend(a: seq<Option<string>>, b: seq<Option<string>>, entry: string, i: nat)
    requires a != [] && b != []
    decreases a
    ensures Walk(a + b, entry, i) ==
      match Walk(a, entry, i)
      case None => None
      case Some(m) => if m < |entry| && entry[m] == '/' then Walk(b, entry, m + 1) else None
  {
    if i < |entry| {
      var j := SkipSlash(entry, i);
      assert (a + b)[0] == a[0];
      if |a| == 1 {
        assert (a + b)[1..] == b;
      } else {
        assert (a + b)[1..] == a[1..] + b;
        WalkAppend(a[1..], b, entry, i);
        if a[0].Some? && NameAt(entry, j, a[0].value) {
          var m := j + |a[0].value|;
          if m < |entry| && entry[m] == '/' {
            WalkAppend(a[1..], b, entry, m + 1);
          }
        }
      }
    }
  }

  /** A walk that stays inside `entry` walks identically on any extension of it. */
  lemma {:induction false} WalkExtend(ls: seq<Option<string>>, entry: string, more: string, i: nat)
    requires Walk(ls, entry, i).Some? && ls != []
    decreases ls
    ensures Walk(ls, entry + more, i) == Walk(ls, entry, i)
  {
    var e := entry + more;
    var j := SkipSlash(entry, i);
    assert e[i] == entry[i];
    var n := ls[0].value;
    assert e[j..j + |n|] == entry[j..j + |n|];
    if |ls| > 1 {
      var m := j + |n|;
      assert e[m] == entry[m];
      WalkExtend(ls[1..], entry, more, m + 1);
    }
  }

  /** A path whose strict extension spells the entry does not spell it itself. */
  lemma ProperPrefixDoesNotResolve(t: XmlNode, q: Path, p: Path, entry: string, i: nat)
    requires Resolves(t, p, entry, i)
    requires IsPrefix(q, p) && q != [] && |q| < |p|
    ensures !Resolves(t, q, entry, i)
  {
    var rest := p[|q|..];
    assert p == q + rest;
    PathConcat(t, q, rest);
    WalkAppend(Labels(t, q), Labels(At(t, q), rest), entry, i);
  }

  // ---------------------------------------------------------------------------
  // Editing the document

  /** The document with the node at `p` replaced by `n`. */
  function ReplaceAt(t: XmlNode, p: Path, n: XmlNode): XmlNode
    requires ValidPath(t, p)
    decreases p
  {
    if p == [] then n
    else t.(children := t.children[p[0] := ReplaceAt(t.children[p[0]], p[1..], n)])
  }

  ghost predicate StrictlyBelow(q: Path, p: Path) {
    IsPrefix(p, q) && |p| < |q|
  }

  /** Outside the subtree that was replaced nothing changes. */
  lemma {:induction false} ReplaceOutside(t: XmlNode, p: Path, n: XmlNode, q: Path)
    requires ValidPath(t, p) && LabelOf(n) == LabelOf(At(t, p))
    requires !StrictlyBelow(q, p)
    decreases p
    ensures ValidPath(ReplaceAt(t, p, n), q) <==> ValidPath(t, q)
    ensures ValidPath(t, q) ==> Labels(ReplaceAt(t, p, n), q) == Labels(t, q)
  {
    if p != [] && q != [] {
      var t' := ReplaceAt(t, p, n);
      if q[0] == p[0] {
        assert p == [p[0]] + p[1..];
        if |p| <= |q| {
          assert q[..|p|] == [q[0]] + q[1..][..|p| - 1];
        }
        ReplaceOutside(t.children[p[0]], p[1..], n, q[1..]);
      }
    }
  }

  /** Inside the replaced subtree the document is `n`. */
  lemma ReplaceInside(t: XmlNode, p: Path, n: XmlNode, r: Path)
    requires ValidPath(t, p)
    ensures ValidPath(ReplaceAt(t, p, n), p) && At(ReplaceAt(t, p, n), p) == n
    ensures ValidPath(ReplaceAt(t, p, n), p + r) <==> ValidPath(n, r)
    ensures ValidPath(n, r) ==>
      Labels(ReplaceAt(t, p, n), p + r) == Labels(ReplaceAt(t, p, n), p) + Labels(n, r)
  {
    ReplaceAtNode(t, p, n);
    PathConcat(ReplaceAt(t, p, n), p, r);
  }

  lemma {:induction false} ReplaceAtNode(t: XmlNode, p: Path, n: XmlNode)
    requires ValidPath(t, p)
    decreases p
    ensures ValidPath(ReplaceAt(t, p, n), p) && At(ReplaceAt(t, p, n), p) == n
  {
    if p != [] {
      ReplaceAtNode(t.children[p[0]], p[1..], n);
    }
  }

  /** Every path of `t` is still there in `t'`, over the same labels. */
  ghost predicate Grows(t: XmlNode, t': XmlNode) {
    forall q :: ValidPath(t, q) ==> ValidPath(t', q) && Labels(t', q) == Labels(t, q)
  }

  /** `t` with `c` appended to the children of the node at `p`
      (`parent.AddChildNode(...)`). */
  function AddChild(t: XmlNode, p: Path, c: XmlNode): XmlNode
    requires ValidPath(t, p)
  {
    var n := At(t, p);
    ReplaceAt(t, p, n.(children := n.children + [c]))
  }

  /** Appending a child keeps every path over the same labels. */
  lemma AddChildGrows(t: XmlNode, p: Path, c: XmlNode)
    requires ValidPath(t, p)
    ensures Grows(t, AddChild(t, p, c))
  {
    var n := At(t, p);
    var n' := n.(children := n.children + [c]);
    var t' := AddChild(t, p, c);
    forall q | ValidPath(t, q) ensures ValidPath(t', q) && Labels(t', q) == Labels(t, q) {
      if StrictlyBelow(q, p) {
        AddChildKeepsBelow(t, p, c, q);
      } else {
        ReplaceOutside(t, p, n', q);
      }
    }
  }

  lemma AddChildKeepsBelow(t: XmlNode, p: Path, c: XmlNode, q: Path)
    requires ValidPath(t, p) && ValidPath(t, q) && StrictlyBelow(q, p)
    ensures ValidPath(AddChild(t, p, c), q) && Labels(AddChild(t, p, c), q) == Labels(t, q)
  {
    var n := At(t, p);
    var n' := n.(children := n.children + [c]);
    var r := q[|p|..];
    assert q == p + r;
    PathConcat(t, p, r);
    ReplaceInside(t, p, n', r);
    ReplaceOutside(t, p, n', p);
    assert p + [] == p;
    ReplaceInside(t, p, n', []);
    assert n'.children[r[0]] == n.children[r[0]];
    assert Labels(n', r) == Labels(n, r);
  }

  /** The appended child sits at the end of the parent's children. */
  lemma AddChildNew(t: XmlNode, p: Path, c: XmlNode)
    requires ValidPath(t, p)
    ensures var t' := AddChild(t, p, c); var k := |At(t, p).children|;
      ValidPath(t', p + [k]) && At(t', p + [k]) == c &&
      Labels(t', p + [k]) == Labels(t, p) + [LabelOf(c)]
  {
    var n := At(t, p);
    var n' := n.(children := n.children + [c]);
    var t' := AddChild(t, p, c);
    var k := |n.children|;
    ReplaceInside(t, p, n', [k]);
    ReplaceOutside(t, p, n', p);
    PathConcat(t', p, [k]);
  }

  /** Every node of `t` is still in `t'`, with the same element, name and
      text (its children may have grown). */
  ghost predicate KeepsNodes(t: XmlNode, t': XmlNode) {
    forall q :: ValidPath(t, q) ==>
      ValidPath(t', q) && At(t', q).element == At(t, q).element
      && At(t', q).name == At(t, q).name && At(t', q).text == At(t, q).text
  }

  lemma KeepsNodesTrans(t1: XmlNode, t2: XmlNode, t3: XmlNode)
    requires KeepsNodes(t1, t2) && KeepsNodes(t2, t3)
    ensures KeepsNodes(t1, t3)
  {
  }

  /** Appending a child keeps every node with its element, name and text. */
  lemma AddChildKeepsNodes(t: XmlNode, p: Path, c: XmlNode)
    requires ValidPath(t, p)
    ensures KeepsNodes(t, AddChild(t, p, c))
  {
    forall q | ValidPath(t, q)
      ensures ValidPath(AddChild(t, p, c), q) && At(AddChild(t, p, c), q).element == At(t, q).element
              && At(AddChild(t, p, c), q).name == At(t, q).name && At(AddChild(t, p, c), q).text == At(t, q).text
    {
      AddChildKeepsNode(t, p, c, q);
    }
  }

  /** Appending a child keeps the element, name and text of a node. */
  lemma {:induction false} AddChildKeepsNode(t: XmlNode, p: Path, c: XmlNode, q: Path)
    requires ValidPath(t, p) && ValidPath(t, q)
    decreases p
    ensures ValidPath(AddChild(t, p, c), q) && At(AddChild(t, p, c), q).element == At(t, q).element
    ensures At(AddChild(t, p, c), q).name == At(t, q).name && At(AddChild(t, p, c), q).text == At(t, q).text
  {
    var n := At(t, p);
    var n' := n.(children := n.children + [c]);
    if q != [] {
      if p == [] {
        assert AddChild(t, p, c) == n';
        assert n'.children[q[0]] == t.children[q[0]];
      } else {
        var child := t.children[p[0]];
        assert At(child, p[1..]) == n;
        assert AddChild(t, p, c) == t.(children := t.children[p[0] := AddChild(child, p[1..], c)]);
        if q[0] == p[0] {
          AddChildKeepsNode(child, p[1..], c, q[1..]);
        }
      }
    }
  }

  /** The only paths an append adds run through the new child. */
  lemma AddChildOnlyNew(t: XmlNode, p: Path, c: XmlNode, q: Path)
    requires ValidPath(t, p)
    requires ValidPath(AddChild(t, p, c), q) && !ValidPath(t, q)
    ensures StrictlyBelow(q, p) && q[|p|] == |At(t, p).children| && ValidPath(c, q[|p| + 1..])
  {
    var n := At(t, p);
    var n' := n.(children := n.children + [c]);
    if StrictlyBelow(q, p) {
      var r := q[|p|..];
      assert q == p + r;
      ReplaceInside(t, p, n', r);
      PathConcat(t, p, r);
      assert r[1..] == q[|p| + 1..];
    } else {
      ReplaceOutside(t, p, n', q);
    }
  }

  lemma GrowsTrans(t1: XmlNode, t2: XmlNode, t3: XmlNode)
    requires Grows(t1, t2) && Grows(t2, t3)
    ensures Grows(t1, t3)
  {
  }
}
