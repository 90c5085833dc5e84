/** Config-node annotations (tConfigNode): the scope in the configuration
    file that an element and the elements below it read their entries from.
    An element's scope is built by walking up from it and prepending each
    annotated element's node, until an absolute node or the element that
    owns the configuration file is reached. */
module ConfigNodes {
  import opened Common
  import opened Elements
  import opened ConfigFiles

  /** Config-node annotations of the elements that carry one. */
  type NodeAnnotations = map<ElementId, string>

  /** A node followed by exactly one '/' (none is added when it already ends
      with one; an empty node is read as not ending with one). */
  function Fragment(node: string): (r: string)
    ensures EndsWithSlash(r)
    ensures IsPrefix(node, r) && |r| == |node| + (if EndsWithSlash(node) then 0 else 1)
    ensures EndsWithSlash(node) ==> r == node
    ensures StartsWithSlash(node) ==> StartsWithSlash(r)
  {
    node + (if EndsWithSlash(node) then "" else "/")
  }

  /** What element `e` contributes to the scope. */
  function Own(nodes: NodeAnnotations, e: ElementId): string {
    if e in nodes then Fragment(nodes[e]) else ""
  }

  /** The walk stops at an element whose node is absolute. */
  predicate IsAbsolute(nodes: NodeAnnotations, e: ElementId) {
    e in nodes && StartsWithSlash(nodes[e])
  }

  /** The scope collected when the upward walk starts at `fe` and stops at
      the first absolute node or at `stop` at the latest. */
  function ScopeFrom(es: ElementTree, nodes: NodeAnnotations, fe: ElementId, stop: ElementId): (r: string)
    requires ValidTree(es) && AncestorOrSelf(es, stop, fe)
    decreases fe
  {
    if IsAbsolute(nodes, fe) || fe == stop then Own(nodes, fe)
    else ScopeFrom(es, nodes, Parent(es, fe).value, stop) + Own(nodes, fe)
  }

  /** The elements the walk from `fe` visits. */
  ghost predicate OnWalk(es: ElementTree, nodes: NodeAnnotations, a: ElementId, fe: ElementId, stop: ElementId)
    requires ValidTree(es) && AncestorOrSelf(es, stop, fe)
    decreases fe
  {
    a == fe || (!IsAbsolute(nodes, fe) && fe != stop && OnWalk(es, nodes, a, Parent(es, fe).value, stop))
  }

  /** tConfigNode::GetConfigNode, specified: "" when no configuration file is
      responsible for the element, otherwise the collected scope. */
  function ConfigNodeOf(es: ElementTree, files: map<ElementId, ConfigFile>, nodes: NodeAnnotations, e: ElementId): string
    requires ValidTree(es)
    reads files.Values
  {
    match Find(es, files, e)
    case None => ""
    case Some(c) => ScopeFrom(es, nodes, e, c)
  }

  /** tConfigNode::GetConfigNode: the upward walk that prepends fragments. */
  method GetConfigNode(es: ElementTree, files: map<ElementId, ConfigFile>, nodes: NodeAnnotations, e: ElementId)
    returns (result: string)
    requires ValidTree(es)
    ensures result == ConfigNodeOf(es, files, nodes, e)
  {
    var cf := Find(es, files, e);
    if cf.None? {
      return "";
    }
    var stop := cf.value;
    result := "";
    var fe := e;
    while true
      invariant AncestorOrSelf(es, stop, fe)
      invariant ScopeFrom(es, nodes, e, stop) == ScopeFrom(es, nodes, fe, stop) + result
      decreases fe
    {
      if fe in nodes {
        var node := nodes[fe];
        result := Fragment(node) + result;
        if StartsWithSlash(node) {
          return result;
        }
      }
      if fe == stop {
        return result;
      }
      fe := Parent(es, fe).value;
    }
  }

  /** A scope is empty or ends with '/'. */
  lemma {:induction false} ScopeEndsWithSlash(es: ElementTree, nodes: NodeAnnotations, fe: ElementId, stop: ElementId)
    requires ValidTree(es) && AncestorOrSelf(es, stop, fe)
    decreases fe
    ensures var r := ScopeFrom(es, nodes, fe, stop); r == "" || EndsWithSlash(r)
  {
    if !(IsAbsolute(nodes, fe) || fe == stop) {
      var above := ScopeFrom(es, nodes, Parent(es, fe).value, stop);
      ScopeEndsWithSlash(es, nodes, Parent(es, fe).value, stop);
      if fe !in nodes {
        assert above + "" == above;
      }
    }
  }

  /** When the walk reaches an absolute node, the scope is absolute. */
  lemma {:induction false} ScopeAbsolute(es: ElementTree, nodes: NodeAnnotations, fe: ElementId, stop: ElementId, a: ElementId)
    requires ValidTree(es) && AncestorOrSelf(es, stop, fe)
    requires OnWalk(es, nodes, a, fe, stop) && IsAbsolute(nodes, a)
    decreases fe
    ensures StartsWithSlash(ScopeFrom(es, nodes, fe, stop))
  {
    if a != fe {
      var p := Parent(es, fe).value;
      ScopeAbsolute(es, nodes, p, stop, a);
      var above := ScopeFrom(es, nodes, p, stop);
      assert (above + Own(nodes, fe))[0] == above[0];
    }
  }

  /** The walk reads nothing above the element that owns the configuration
      file: annotations outside the chain from `fe` up to `stop` do not
      change the scope. */
  lemma {:induction false} ScopeIgnoresOutside(es: ElementTree, nodes: NodeAnnotations, nodes': NodeAnnotations, fe: ElementId, stop: ElementId)
    requires ValidTree(es) && AncestorOrSelf(es, stop, fe)
    requires forall a: ElementId :: AncestorOrSelf(es, a, fe) && AncestorOrSelf(es, stop, a) ==>
      (a in nodes <==> a in nodes') && (a in nodes ==> nodes[a] == nodes'[a])
    decreases fe
    ensures ScopeFrom(es, nodes, fe, stop) == ScopeFrom(es, nodes', fe, stop)
  {
    if !(IsAbsolute(nodes, fe) || fe == stop) {
      var p := Parent(es, fe).value;
      ScopeIgnoresOutside(es, nodes, nodes', p, stop);
    }
  }

  /** tConfigNode::GetFullConfigEntry: an absolute entry stays as it is; a
      relative one is appended to the element's scope with exactly one '/'
      in between. */
  function GetFullConfigEntry(es: ElementTree, files: map<ElementId, ConfigFile>, nodes: NodeAnnotations,
                              parent: ElementId, entry: string): (r: string)
    requires ValidTree(es)
    reads files.Values
    ensures StartsWithSlash(entry) ==> r == entry
    ensures !StartsWithSlash(entry) ==>
      var scope := ConfigNodeOf(es, files, nodes, parent);
      |r| == |Fragment(scope)| + |entry| && r[..|r| - |entry|] == Fragment(scope) && r[|r| - |entry|..] == entry
    ensures var scope := ConfigNodeOf(es, files, nodes, parent);
      !StartsWithSlash(entry) && scope != "" ==> r == scope + entry
    ensures StartsWithSlash(entry) || StartsWithSlash(ConfigNodeOf(es, files, nodes, parent)) ==> StartsWithSlash(r)
  {
    if StartsWithSlash(entry) then entry
    else
      var node := ConfigNodeOf(es, files, nodes, parent);
      ConfigNodeEndsWithSlash(es, files, nodes, parent);
      node + (if EndsWithSlash(node) then "" else "/") + entry
  }

  /** The scope of an element is empty or ends with '/'. */
  lemma ConfigNodeEndsWithSlash(es: ElementTree, files: map<ElementId, ConfigFile>, nodes: NodeAnnotations, e: ElementId)
    requires ValidTree(es)
    ensures var s := ConfigNodeOf(es, files, nodes, e); s == "" || EndsWithSlash(s)
  {
    var f := Find(es, files, e);
    if f.Some? {
      ScopeEndsWithSlash(es, nodes, e, f.value);
    }
  }

  /** A scope "/root" two levels up, "a/b" one level up and the entry "x"
      give the full entry "/root/a/b/x". */
  lemma FullEntryExample(cf: ConfigFile)
    requires cf.active
    ensures var es := map[0 := Element(None, false, true, false, [1]), 1 := Element(Some(0), false, true, false, [2]),
                          2 := Element(Some(1), false, true, false, [])];
      var nodes := map[0 := "/root", 1 := "a/b"];
      ValidTree(es) && GetFullConfigEntry(es, map[0 := cf], nodes, 2, "x") == "/root/a/b/x"
  {
    var es := map[0 := Element(None, false, true, false, [1]), 1 := Element(Some(0), false, true, false, [2]),
                  2 := Element(Some(1), false, true, false, [])];
    var nodes := map[0 := "/root", 1 := "a/b"];
    var files := map[0 := cf];
    assert ValidTree(es);
    assert AncestorOrSelf(es, 0, 2);
    assert Find(es, files, 2) == Some(0);
    assert ScopeFrom(es, nodes, 2, 0) == "/root/a/b/";
  }
}
