/** A configuration file (tConfigFile): an XML tree of "node" branches and
    "value" leaves, edited in place when entries are created or rewritten,
    and the search for the configuration file responsible for an element. */
module ConfigFiles {
  import opened Common
  import opened ConfigTree
  import opened Elements

  /** The name a newly created entry element gets: the part of the entry
      after its last '/' (the whole entry when it has none). */
  function EntryName(entry: string): string {
    match LastSlash(entry)
    case None => entry
    case Some(s) => entry[s + 1..]
  }

  /** An entry without an empty segment: not empty, and no '/' after the
      first character is followed by the end or by another '/'. One leading
      '/' is allowed. Creating such an entry makes it findable. */
  ghost predicate WellFormed(entry: string) {
    entry != [] &&
    forall i :: 0 < i < |entry| && entry[i] == '/' ==> i + 1 < |entry| && entry[i + 1] != '/'
  }

  /** `p` is the first path in document order that spells the entry. */
  ghost predicate FirstMatch(t: XmlNode, p: Path, entry: string) {
    Resolves(t, p, entry, 0) && forall q :: Resolves(t, q, entry, 0) ==> !Precedes(q, p)
  }

  /** The lookup from the root finds exactly the first match. */
  lemma LookupIsFirstMatch(entry: string, t: XmlNode, p: Path)
    ensures Lookup(entry, t, 0) == Some(p) <==> FirstMatch(t, p, entry)
  {
    LookupSpec(entry, t, 0);
    if FirstMatch(t, p, entry) && Lookup(entry, t, 0) != Some(p) {
      var r := Lookup(entry, t, 0).value;
      PrecedesTotal(p, r);
    }
  }

  // ---------------------------------------------------------------------------
  // Facts about creating entries

  lemma WellFormedParent(entry: string, s: nat)
    requires WellFormed(entry) && LastSlash(entry) == Some(s) && s > 0
    ensures WellFormed(entry[..s])
    ensures s + 1 < |entry| && entry[s + 1] != '/'
  {
    forall i | 0 < i < s && entry[..s][i] == '/' ensures i + 1 < s && entry[..s][i + 1] != '/' {
      assert entry[i] == '/';
    }
  }

  /** A child appended to the root spells an entry without an inner '/'. */
  lemma RootChildResolves(t: XmlNode, c: XmlNode, entry: string)
    requires entry != [] && (LastSlash(entry).None? || LastSlash(entry) == Some(0))
    requires IsEntryElement(c) && c.name.value == EntryName(entry)
    ensures Resolves(AddChild(t, [], c), [|t.children|], entry, 0)
  {
    AddChildNew(t, [], c);
    assert [] + [|t.children|] == [|t.children|];
    if LastSlash(entry).None? {
      assert entry[0..|entry|] == entry;
    } else {
      assert entry[1..1 + |entry[1..]|] == entry[1..];
    }
  }

  /** A child appended below the node spelling `entry[..s]` spells `entry`. */
  lemma ChildResolves(t: XmlNode, pp: Path, c: XmlNode, entry: string, s: nat)
    requires ValidPath(t, pp) && s + 1 < |entry| && entry[s] == '/' && entry[s + 1] != '/'
    requires Resolves(t, pp, entry[..s], 0)
    requires IsEntryElement(c) && c.name.value == entry[s + 1..]
    ensures Resolves(AddChild(t, pp, c), pp + [|At(t, pp).children|], entry, 0)
  {
    AddChildNew(t, pp, c);
    var ls := Labels(t, pp);
    assert entry[..s] + entry[s..] == entry;
    WalkExtend(ls, entry[..s], entry[s..], 0);
    WalkAppend(ls, [LabelOf(c)], entry, 0);
    assert entry[s + 1..s + 1 + |entry[s + 1..]|] == entry[s + 1..];
  }

  /** When the entry was absent and only the chain of a new path was added,
      that new path is the one the lookup finds. */
  lemma CreatedIsOnlyMatch(t0: XmlNode, t: XmlNode, p: Path, entry: string)
    requires Lookup(entry, t0, 0).None?
    requires Grows(t0, t)
    requires forall q :: ValidPath(t, q) && !ValidPath(t0, q) ==> IsPrefix(q, p)
    requires Resolves(t, p, entry, 0)
    ensures Lookup(entry, t, 0) == Some(p)
  {
    LookupSpec(entry, t0, 0);
    forall q | ValidPath(t0, q) ensures !Resolves(t, q, entry, 0) {
      assert Labels(t, q) == Labels(t0, q);
      assert !Resolves(t0, q, entry, 0);
    }
    assert p[..|p|] == p;
    forall q | Resolves(t, q, entry, 0) ensures q == p {
      if !ValidPath(t0, q) && q != p {
        ProperPrefixDoesNotResolve(t, q, p, entry, 0);
      }
    }
    LookupUnique(entry, t, 0, p);
  }

  // ---------------------------------------------------------------------------
  // Re-creating an existing entry as a fresh leaf

  /** The parent path of a non-empty path. */
  function ParentPath(f: Path): Path
    requires f != []
  {
    f[..|f| - 1]
  }

  /** The fresh leaf that replaces the node at `f`: same name, no content. */
  function FreshLeaf(t: XmlNode, f: Path): XmlNode
    requires ValidPath(t, f)
  {
    XmlNode(LeafName, At(t, f).name, "", [])
  }

  /** The node at `f` removed from its parent and a fresh "value" leaf with
      the same name appended at the end of the parent's children. */
  function Recreate(t: XmlNode, f: Path): XmlNode
    requires ValidPath(t, f) && f != []
  {
    var pp := ParentPath(f);
    var k := f[|f| - 1];
    assert f == pp + [k];
    PathConcat(t, pp, [k]);
    var n := At(t, pp);
    ReplaceAt(t, pp, n.(children := n.children[..k] + n.children[k + 1..] + [FreshLeaf(t, f)]))
  }

  /** Where the re-created leaf sits: last child of the old parent. */
  function RecreatedPath(t: XmlNode, f: Path): Path
    requires ValidPath(t, f) && f != []
  {
    assert f == ParentPath(f) + [f[|f| - 1]];
    PathConcat(t, ParentPath(f), [f[|f| - 1]]);
    ParentPath(f) + [|At(t, ParentPath(f)).children| - 1]
  }

  /** A path that spells something is made of entry elements only. */
  lemma {:induction false} WalkNamesEveryNode(ls: seq<Option<string>>, entry: string, i: nat)
    requires Walk(ls, entry, i).Some?
    decreases ls
    ensures forall x :: 0 <= x < |ls| ==> ls[x].Some?
  {
    if ls != [] && |ls| > 1 {
      var j := SkipSlash(entry, i);
      WalkNamesEveryNode(ls[1..], entry, j + |ls[0].value| + 1);
      forall x | 0 < x < |ls| ensures ls[x].Some? {
        assert ls[x] == ls[1..][x - 1];
      }
    }
  }

  lemma RecreatedLeafShape(t: XmlNode, f: Path)
    requires ValidPath(t, f) && f != []
    ensures ValidPath(t, ParentPath(f))
    ensures ValidPath(Recreate(t, f), RecreatedPath(t, f))
    ensures At(Recreate(t, f), RecreatedPath(t, f)) == FreshLeaf(t, f)
    ensures Labels(Recreate(t, f), RecreatedPath(t, f)) ==
      Labels(t, ParentPath(f)) + [LabelOf(FreshLeaf(t, f))]
  {
    var pp := ParentPath(f);
    var k := f[|f| - 1];
    assert f == pp + [k];
    PathConcat(t, pp, [k]);
    var n := At(t, pp);
    var n' := n.(children := n.children[..k] + n.children[k + 1..] + [FreshLeaf(t, f)]);
    var last := |n.children| - 1;
    assert n'.children[last] == FreshLeaf(t, f);
    assert Recreate(t, f) == ReplaceAt(t, pp, n');
    ReplaceInside(t, pp, n', [last]);
    ReplaceOutside(t, pp, n', pp);
    assert pp + [] == pp;
    ReplaceInside(t, pp, n', []);
    PathConcat(Recreate(t, f), pp, [last]);
  }

  /** Re-creating the only node that spells the entry keeps the entry
      findable, now as the fresh leaf. */
  lemma RecreateUnique(t: XmlNode, f: Path, entry: string)
    requires Resolves(t, f, entry, 0)
    requires forall q :: Resolves(t, q, entry, 0) ==> q == f
    ensures Lookup(entry, Recreate(t, f), 0) == Some(RecreatedPath(t, f))
  {
    var pp := ParentPath(f);
    var k := f[|f| - 1];
    assert f == pp + [k];
    PathConcat(t, pp, [k]);
    var n := At(t, pp);
    var leaf := FreshLeaf(t, f);
    var n' := n.(children := n.children[..k] + n.children[k + 1..] + [leaf]);
    var t' := Recreate(t, f);
    var pnew := RecreatedPath(t, f);
    RecreatedLeafShape(t, f);
    // The old node was an entry element, so the leaf carries the same label.
    WalkNamesEveryNode(Labels(t, f), entry, 0);
    assert Labels(t, f) == Labels(t, pp) + [LabelOf(At(t, f))];
    assert Labels(t, f)[|f| - 1] == LabelOf(At(t, f));
    assert LabelOf(leaf) == LabelOf(At(t, f));
    assert Resolves(t', pnew, entry, 0);
    assert t' == ReplaceAt(t, pp, n');
    assert StrictlyBelow(f, pp);
    forall q | ValidPath(t', q) && !StrictlyBelow(q, pp) ensures !Resolves(t', q, entry, 0) {
      ReplaceOutside(t, pp, n', q);
      assert Labels(t', q) == Labels(t, q);
      assert q != f;
      assert !Resolves(t, q, entry, 0);
    }
    forall q | ValidPath(t', q) && StrictlyBelow(q, pp) && q[|pp|] < |n.children| - 1
      ensures !Resolves(t', q, entry, 0)
    {
      RecreateSiblingMoves(t, f, q, entry);
    }
    forall q | ValidPath(t', q) && StrictlyBelow(q, pp) && q[|pp|] >= |n.children| - 1
      ensures q == pnew
    {
      var r := q[|pp|..];
      assert q == pp + r;
      ReplaceInside(t, pp, n', r);
      assert ValidPath(leaf, r[1..]);
      assert r == [|n.children| - 1];
    }
    LookupUnique(entry, t', 0, pnew);
  }

  /** Below the edited parent, the children before the removed one keep
      their index and the ones after it move down by one. */
  lemma RemovedSiblingShift(n: XmlNode, k: nat, leaf: XmlNode, r: Path)
    requires k < |n.children|
    requires ValidPath(n.(children := n.children[..k] + n.children[k + 1..] + [leaf]), r)
    requires r != [] && r[0] < |n.children| - 1
    ensures var r' := [if r[0] < k then r[0] else r[0] + 1] + r[1..];
      ValidPath(n, r') && r'[0] != k &&
      Labels(n.(children := n.children[..k] + n.children[k + 1..] + [leaf]), r) == Labels(n, r')
  {
    var n' := n.(children := n.children[..k] + n.children[k + 1..] + [leaf]);
    var j := r[0];
    var j' := if j < k then j else j + 1;
    assert n'.children[j] == n.children[j'];
    var r' := [j'] + r[1..];
    assert r'[1..] == r[1..];
  }

  /** A sibling that was not the re-created node keeps its labels, so it
      spells the entry afterwards only if it did before. */
  lemma RecreateSiblingMoves(t: XmlNode, f: Path, q: Path, entry: string)
    requires ValidPath(t, f) && f != []
    requires Resolves(t, f, entry, 0)
    requires forall q :: Resolves(t, q, entry, 0) ==> q == f
    requires ValidPath(Recreate(t, f), q) && StrictlyBelow(q, ParentPath(f))
    requires ValidPath(t, ParentPath(f)) && q[|ParentPath(f)|] < |At(t, ParentPath(f)).children| - 1
    ensures !Resolves(Recreate(t, f), q, entry, 0)
  {
    var q' := SiblingBefore(t, f, q);
    assert !Resolves(t, q', entry, 0);
  }

  /** A path below a sibling of the re-created leaf's old place reads in
      the re-created tree what the same path, with the sibling index
      shifted back over the removed leaf, reads in the old tree. */
  lemma SiblingBefore(t: XmlNode, f: Path, q: Path) returns (q': Path)
    requires ValidPath(t, f) && f != []
    requires ValidPath(Recreate(t, f), q) && StrictlyBelow(q, ParentPath(f))
    requires ValidPath(t, ParentPath(f)) && q[|ParentPath(f)|] < |At(t, ParentPath(f)).children| - 1
    ensures ValidPath(t, q') && q' != [] && q' != f
    ensures Labels(Recreate(t, f), q) == Labels(t, q')
  {
    var pp := ParentPath(f);
    var k := f[|f| - 1];
    assert f == pp + [k];
    PathConcat(t, pp, [k]);
    var n := At(t, pp);
    var n' := n.(children := n.children[..k] + n.children[k + 1..] + [FreshLeaf(t, f)]);
    var t' := Recreate(t, f);
    assert t' == ReplaceAt(t, pp, n');
    var r := q[|pp|..];
    assert q == pp + r;
    ReplaceInside(t, pp, n', r);
    RemovedSiblingShift(n, k, FreshLeaf(t, f), r);
    var r' := [if r[0] < k then r[0] else r[0] + 1] + r[1..];
    ReplaceOutside(t, pp, n', pp);
    assert pp + [] == pp;
    ReplaceInside(t, pp, n', []);
    PathConcat(t, pp, r');
    q' := pp + r';
    assert q'[|pp|] != f[|pp|];
  }

  /** Duplicate same-named siblings defeat the re-creation: the re-created
      leaf moves behind its twin, and the lookup then finds the twin. */
  lemma RecreateBehindTwin()
    ensures var leaf := XmlNode(LeafName, Some("a"), "1", []);
      var twin := XmlNode(BranchName, Some("a"), "", []);
      var t := XmlNode(BranchName, None, "", [leaf, twin]);
      Lookup("a", t, 0) == Some([0]) &&
      Recreate(t, [0]) == XmlNode(BranchName, None, "", [twin, XmlNode(LeafName, Some("a"), "", [])]) &&
      Lookup("a", Recreate(t, [0]), 0) == Some([0]) &&
      At(Recreate(t, [0]), [0]).element == BranchName
  {
    var leaf := XmlNode(LeafName, Some("a"), "1", []);
    var twin := XmlNode(BranchName, Some("a"), "", []);
    var t := XmlNode(BranchName, None, "", [leaf, twin]);
    assert "a"[0..1] == "a";
    assert NameAt("a", 0, "a");
    assert SkipSlash("a", 0) == 0;
    assert ChildMatch("a", leaf, 0) == Some([]);
    assert [0] + [] == [0];
    assert SearchChildren("a", t, 0, 0) == Some([0]);
    var t' := Recreate(t, [0]);
    assert t'.children == [twin, XmlNode(LeafName, Some("a"), "", [])];
    assert ChildMatch("a", twin, 0) == Some([]);
    assert SearchChildren("a", t', 0, 0) == Some([0]);
  }

  // ---------------------------------------------------------------------------
  // The configuration file

  /** Paths new since `t0` lie below `parent`; after a child is added to
      `parent` they lie below the new child or above it. */
  lemma NewPathsBelow(t0: XmlNode, mid: XmlNode, parent: Path, created: XmlNode)
    requires ValidPath(mid, parent) && created.children == []
    requires forall q :: ValidPath(mid, q) && !ValidPath(t0, q) ==> IsPrefix(q, parent)
    ensures forall q: Path :: ValidPath(AddChild(mid, parent, created), q) && !ValidPath(t0, q) ==>
              IsPrefix(q, parent + [|At(mid, parent).children|])
  {
    var t := AddChild(mid, parent, created);
    var p := parent + [|At(mid, parent).children|];
    forall q: Path | ValidPath(t, q) && !ValidPath(t0, q) ensures IsPrefix(q, p) {
      if ValidPath(mid, q) {
        assert IsPrefix(q, parent);
        assert p[..|q|] == parent[..|q|];
      } else {
        AddChildOnlyNew(mid, parent, created, q);
        assert q == p;
      }
    }
  }

  class ConfigFile {
    /** The wrapped XML document; its root is the root "node" element. */
    var tree: XmlNode
    /** File the configuration was loaded from and is saved to */
    var filename: string
    /** Whether this file is used to configure the elements below it */
    var active: bool

    /** A new, empty configuration: only a root branch. */
    constructor ()
      ensures tree == XmlNode(BranchName, None, "", []) && filename == "" && active
    {
      tree := XmlNode(BranchName, None, "", []);
      filename := "";
      active := true;
    }

    /** Whether the entry denotes a leaf that holds a value. */
    function HasEntry(entry: string): (b: bool)
      reads this
      ensures b <==> exists p :: FirstMatch(tree, p, entry) && At(tree, p).element == LeafName
    {
      LookupSpec(entry, tree, 0);
      var r := Lookup(entry, tree, 0);
      if r.Some? then
        LookupIsFirstMatch(entry, tree, r.value);
        FirstMatchUnique(tree, entry, r.value);
        At(tree, r.value).element == LeafName
      else false
    }

    /** The text of the node the entry denotes, "" when there is none. */
    function GetStringEntry(entry: string): (s: string)
      reads this
      ensures forall p :: FirstMatch(tree, p, entry) ==> s == At(tree, p).text
      ensures (forall p :: !Resolves(tree, p, entry, 0)) ==> s == ""
    {
      LookupSpec(entry, tree, 0);
      var r := Lookup(entry, tree, 0);
      if r.Some? then
        LookupIsFirstMatch(entry, tree, r.value);
        FirstMatchUnique(tree, entry, r.value);
        At(tree, r.value).text
      else ""
    }

    /** Creates the entry (a leaf when `leaf`), creating missing ancestors
        as branches; without `leaf` an existing node is returned as is. */
    method CreateEntry(entry: string, leaf: bool) returns (p: Path)
      modifies this
      decreases |entry|
      ensures filename == old(filename) && active == old(active)
      ensures ValidPath(tree, p) && p != []
      ensures Grows(old(tree), tree) && KeepsNodes(old(tree), tree)
      ensures forall q :: ValidPath(tree, q) && !ValidPath(old(tree), q) ==> IsPrefix(q, p)
      ensures forall q :: ValidPath(tree, q) && !ValidPath(old(tree), q) && q != p ==> At(tree, q).element == BranchName
      ensures !leaf && Lookup(entry, old(tree), 0).Some? ==>
        tree == old(tree) && Lookup(entry, old(tree), 0) == Some(p)
      ensures leaf || Lookup(entry, old(tree), 0).None? ==>
        At(tree, p) == XmlNode(if leaf then LeafName else BranchName, Some(EntryName(entry)), "", [])
      ensures WellFormed(entry) ==> Resolves(tree, p, entry, 0)
      ensures WellFormed(entry) && Lookup(entry, old(tree), 0).None? ==> Lookup(entry, tree, 0) == Some(p)
    {
      if !leaf {
        var found := GetEntryImplementation(entry, tree, 0);
        if found.Some? {
          LookupSpec(entry, tree, 0);
          return found.value;
        }
      }
      var slash := LastSlash(entry);
      var parent: Path := [];
      if slash.Some? && slash.value != 0 {
        parent := CreateEntry(entry[..slash.value], false);
      }
      ghost var mid := tree;
      var created := XmlNode(if leaf then LeafName else BranchName, Some(EntryName(entry)), "", []);
      var k := |At(tree, parent).children|;
      tree := AddChild(tree, parent, created);
      p := parent + [k];
      AddChildGrows(mid, parent, created);
      AddChildNew(mid, parent, created);
      GrowsTrans(old(tree), mid, tree);
      AddChildKeepsNodes(mid, parent, created);
      KeepsNodesTrans(old(tree), mid, tree);
      NewPathsBelow(old(tree), mid, parent, created);
      forall q | ValidPath(tree, q) && !ValidPath(old(tree), q) && q != p ensures At(tree, q).element == BranchName {
        if ValidPath(mid, q) {
          AddChildKeepsNode(mid, parent, created, q);
        } else {
          AddChildOnlyNew(mid, parent, created, q);
        }
      }
      if WellFormed(entry) {
        if slash.None? || slash.value == 0 {
          RootChildResolves(mid, created, entry);
        } else {
          WellFormedParent(entry, slash.value);
          ChildResolves(mid, parent, created, entry, slash.value);
        }
        if Lookup(entry, old(tree), 0).None? {
          CreatedIsOnlyMatch(old(tree), tree, p, entry);
        }
      }
    }

    /** The leaf the entry denotes. Without `create` a missing entry or a
        branch is an error and nothing changes; with `create` an existing
        node is re-created as a fresh leaf at the end of its parent's
        children, and a missing one is created. */
    method GetEntry(entry: string, create: bool) returns (r: Result<Path>)
      modifies this
      ensures filename == old(filename) && active == old(active)
      ensures !create ==> tree == old(tree)
      ensures !create ==> (r.Ok? <==> HasEntry(entry))
      ensures !create && r.Ok? ==> FirstMatch(tree, r.value, entry)
      ensures !create && r.Err? ==> (r.message ==
        (if Lookup(entry, tree, 0).None? then "Config node not found: " else "Config node is no leaf: ") + entry)
      ensures create ==> r.Ok? && ValidPath(tree, r.value)
      ensures create && Lookup(entry, old(tree), 0).Some? ==>
        var f := Lookup(entry, old(tree), 0).value;
        tree == Recreate(old(tree), f) && r.value == RecreatedPath(old(tree), f) &&
        At(tree, r.value) == FreshLeaf(old(tree), f)
      ensures (create && Lookup(entry, old(tree), 0).Some? &&
        forall q :: Resolves(old(tree), q, entry, 0) ==> q == Lookup(entry, old(tree), 0).value) ==>
        HasEntry(entry) && Lookup(entry, tree, 0) == Some(r.value)
      ensures create && Lookup(entry, old(tree), 0).None? ==>
        At(tree, r.value) == XmlNode(LeafName, Some(EntryName(entry)), "", [])
        && Grows(old(tree), tree) && KeepsNodes(old(tree), tree)
      ensures create && Lookup(entry, old(tree), 0).None? ==>
        (forall q :: ValidPath(tree, q) && !ValidPath(old(tree), q) ==> IsPrefix(q, r.value)) &&
        (forall q :: ValidPath(tree, q) && !ValidPath(old(tree), q) && q != r.value ==> At(tree, q).element == BranchName)
      ensures create && Lookup(entry, old(tree), 0).None? && WellFormed(entry) ==>
        HasEntry(entry) && Lookup(entry, tree, 0) == Some(r.value)
    {
      var found := GetEntryImplementation(entry, tree, 0);
      LookupSpec(entry, tree, 0);
      if !create {
        if found.None? {
          return Err("Config node not found: " + entry);
        }
        LookupIsFirstMatch(entry, tree, found.value);
        if At(tree, found.value).element != LeafName {
          return Err("Config node is no leaf: " + entry);
        }
        return Ok(found.value);
      }
      if found.Some? {
        var f := found.value;
        RecreatedLeafShape(tree, f);
        r := Ok(RecreatedPath(tree, f));
        if forall q :: Resolves(tree, q, entry, 0) ==> q == f {
          RecreateUnique(tree, f, entry);
        }
        tree := Recreate(tree, f);
        LookupIsFirstMatch(entry, tree, r.value);
      } else {
        var p := CreateEntry(entry, true);
        r := Ok(p);
        LookupIsFirstMatch(entry, tree, p);
      }
    }

    /** The leaf the entry denotes: the node `GetEntry(entry, false)`
        returns when `HasEntry(entry)` holds. */
    function LeafNode(entry: string): (n: Option<XmlNode>)
      reads this
      ensures n.Some? <==> HasEntry(entry)
      ensures n.Some? ==> exists p :: FirstMatch(tree, p, entry) && At(tree, p) == n.value
    {
      LookupSpec(entry, tree, 0);
      var r := Lookup(entry, tree, 0);
      if r.Some? && At(tree, r.value).element == LeafName then
        LookupIsFirstMatch(entry, tree, r.value);
        Some(At(tree, r.value))
      else None
    }

    /** Writes a serialised value as the text of the node at `p`, leaving
        its element name, name attribute and children as they are. */
    method SetText(p: Path, text: string)
      modifies this
      requires ValidPath(tree, p)
      ensures filename == old(filename) && active == old(active)
      ensures tree == ReplaceAt(old(tree), p, At(old(tree), p).(text := text))
      ensures ValidPath(tree, p) && At(tree, p).text == text
      ensures At(tree, p).element == At(old(tree), p).element && At(tree, p).name == At(old(tree), p).name
    {
      ReplaceInside(tree, p, At(tree, p).(text := text), []);
      tree := ReplaceAt(tree, p, At(tree, p).(text := text));
    }
  }

  /** At most one path is the first match. */
  lemma FirstMatchUnique(t: XmlNode, entry: string, p: Path)
    requires FirstMatch(t, p, entry)
    ensures forall q :: FirstMatch(t, q, entry) ==> q == p
  {
    forall q | FirstMatch(t, q, entry) ensures q == p {
      if q != p {
        PrecedesTotal(q, p);
      }
    }
  }

  // ---------------------------------------------------------------------------
  // Finding the configuration file of an element

  /** The element carries a configuration file that is active. */
  predicate HasActiveFile(files: map<ElementId, ConfigFile>, e: ElementId)
    reads files.Values
  {
    e in files && files[e].active
  }

  /** tConfigFile::Find: the nearest element, starting at `e` and going up
      the parents, whose configuration file is active (the file is
      `files[r.value]`). */
  function Find(es: ElementTree, files: map<ElementId, ConfigFile>, e: ElementId): (r: Option<ElementId>)
    requires ValidTree(es)
    reads files.Values
    decreases e
    ensures r.Some? ==> AncestorOrSelf(es, r.value, e) && HasActiveFile(files, r.value)
    ensures r.Some? ==> forall a: ElementId :: AncestorOrSelf(es, a, e) && StrictAncestor(es, r.value, a) ==>
      !HasActiveFile(files, a)
    ensures r.None? ==> forall a: ElementId :: AncestorOrSelf(es, a, e) ==> !HasActiveFile(files, a)
  {
    StrictAncestorsAreSmaller(es);
    AncestorsAreSmaller(es, e);
    if HasActiveFile(files, e) then Some(e)
    else
      match Parent(es, e)
      case None => None
      case Some(p) => Find(es, files, p)
  }
}
