/** The map keys of stream nodes: label/stream/node and label/stream/node/type. */
module NodeKeys {
  import opened Records

  function NodeKey(base: string, stream: string, node: string): string {
    base + "/" + stream + "/" + node
  }

  function TypedKey(base: string, stream: string, node: string, nodeType: string): string {
    NodeKey(base, stream, node) + "/" + nodeType
  }

  /** The part after the last slash can be read back when it holds no slash itself. */
  lemma LastPart(a: string, x: string, b: string, y: string)
    requires '/' !in x && '/' !in y && a + "/" + x == b + "/" + y
    ensures a == b && x == y
  {
    LastSlash(a, x);
    LastSlash(b, y);
    var s := a + "/" + x;
    assert |a| == |b|;
    assert a == s[..|a|] && b == s[..|b|];
    assert x == s[|a| + 1..] && y == s[|b| + 1..];
  }

  lemma LastSlash(a: string, x: string)
    requires '/' !in x
    ensures var s := a + "/" + x;
            s[|a|] == '/' && forall i :: |a| < i < |s| ==> s[i] != '/'
  {
    var s := a + "/" + x;
    forall i | |a| < i < |s| ensures s[i] != '/' {
      assert s[i] == x[i - |a| - 1];
    }
  }

  /** Whatever the label contains, distinct nodes have distinct keys: stream and node names
      are directory names, free of slashes. */
  lemma NodeKeyInjective(b1: string, s1: string, n1: string, b2: string, s2: string, n2: string)
    requires '/' !in s1 && '/' !in n1 && '/' !in s2 && '/' !in n2
    requires NodeKey(b1, s1, n1) == NodeKey(b2, s2, n2)
    ensures b1 == b2 && s1 == s2 && n1 == n2
  {
    LastPart(b1 + "/" + s1, n1, b2 + "/" + s2, n2);
    LastPart(b1, s1, b2, s2);
  }

  lemma TypedKeyInjective(
      b1: string, s1: string, n1: string, t1: string, b2: string, s2: string, n2: string, t2: string)
    requires '/' !in s1 && '/' !in n1 && '/' !in t1 && '/' !in s2 && '/' !in n2 && '/' !in t2
    requires TypedKey(b1, s1, n1, t1) == TypedKey(b2, s2, n2, t2)
    ensures b1 == b2 && s1 == s2 && n1 == n2 && t1 == t2
  {
    LastPart(NodeKey(b1, s1, n1), t1, NodeKey(b2, s2, n2), t2);
    NodeKeyInjective(b1, s1, n1, b2, s2, n2);
  }

  /** Nodes as discovery returns them: slash-free stream and node names, no node twice. */
  predicate ProperNodes(nodes: seq<StreamNode>) {
    && (forall i :: 0 <= i < |nodes| ==> '/' !in nodes[i].stream && '/' !in nodes[i].node)
    && (forall i, j :: 0 <= i < j < |nodes| ==>
          (nodes[i].base, nodes[i].stream, nodes[i].node) != (nodes[j].base, nodes[j].stream, nodes[j].node))
  }
}
