/**
 * The compiler pass that names anonymous AMD `define` calls
 * (ExportModuleNameCompilerPass.processChildren): every call `define(x, ...)`
 * whose first argument is not a string literal becomes
 * `define("<module name>", x, ...)`, at any depth of the syntax tree.
 */
module ExportModuleName {

  /** The node types the pass distinguishes; every other type is `OtherToken`. */
  datatype Token = Call | Name | Str | OtherToken(code: nat)

  /**
   * A syntax-tree node: its type, its string (a NAME's identifier, a STRING's
   * value), the source-name property (the module name of the file) and its
   * children in order. A CALL's first child is the callee, the rest are its
   * arguments.
   */
  datatype Node = Node(token: Token, str: string, sourceName: string, children: seq<Node>)

  /** A call of the plain name `define` with a first argument that is not a string literal. */
  predicate IsAnonymousDefine(n: Node)
  {
    n.token == Call && |n.children| >= 2 &&
    n.children[0].token == Name && n.children[0].str == "define" &&
    n.children[1].token != Str
  }

  /** The STRING node the pass inserts: the callee's source name (`Node.newString(expname)`). */
  function ModuleNameNode(callee: Node): Node
  {
    Node(Str, callee.sourceName, "", [])
  }

  /**
   * The tree below `c` after the pass, `c` itself included: the children are
   * processed, and `c` gets the module name before its first argument when it
   * is an anonymous define. The node's own type and strings never change.
   */
  function Rewrite(c: Node): (r: Node)
    ensures r.token == c.token && r.str == c.str && r.sourceName == c.sourceName
    ensures IsAnonymousDefine(c) ==>
              |r.children| == |c.children| + 1 && r.children[1] == ModuleNameNode(c.children[0])
    ensures !IsAnonymousDefine(c) ==> |r.children| == |c.children|
    ensures !IsAnonymousDefine(r)
    decreases c
  {
    var kids := seq(|c.children|, i requires 0 <= i < |c.children| => Rewrite(c.children[i]));
    if IsAnonymousDefine(c) then c.(children := [kids[0], ModuleNameNode(c.children[0])] + kids[1..])
    else c.(children := kids)
  }

  /**
   * `process(externs, root)`: the children of the root are rewritten, and no
   * anonymous define is left below the root; the root itself is not examined.
   */
  function Process(root: Node): (r: Node)
    ensures r.token == root.token && r.str == root.str && r.sourceName == root.sourceName
    ensures |r.children| == |root.children|
    ensures forall i :: 0 <= i < |root.children| ==> r.children[i] == Rewrite(root.children[i])
    ensures forall i :: 0 <= i < |r.children| ==> AllNamed(r.children[i])
  {
    assert forall i :: 0 <= i < |root.children| ==> AllNamed(Rewrite(root.children[i])) by {
      forall i | 0 <= i < |root.children| {
        RewriteNamesAll(root.children[i]);
      }
    }
    root.(children := seq(|root.children|, i requires 0 <= i < |root.children| => Rewrite(root.children[i])))
  }

  /** No anonymous define anywhere in the tree. */
  predicate AllNamed(n: Node)
    decreases n
  {
    !IsAnonymousDefine(n) && forall i :: 0 <= i < |n.children| ==> AllNamed(n.children[i])
  }

  /** Every descendant is visited: after the pass no anonymous define is left at any depth. */
  lemma {:induction false} RewriteNamesAll(c: Node)
    ensures AllNamed(Rewrite(c))
    decreases c
  {
    var r := Rewrite(c);
    forall i | 0 <= i < |r.children|
      ensures AllNamed(r.children[i])
    {
      if IsAnonymousDefine(c) {
        if i == 0 {
          RewriteNamesAll(c.children[0]);
        } else if i >= 2 {
          RewriteNamesAll(c.children[i - 1]);
        }
      } else {
        RewriteNamesAll(c.children[i]);
      }
    }
  }

  /** A tree without anonymous defines is left as it is. */
  lemma {:induction false} RewriteFixesNamed(c: Node)
    requires AllNamed(c)
    ensures Rewrite(c) == c
    decreases c
  {
    forall i | 0 <= i < |c.children|
      ensures Rewrite(c.children[i]) == c.children[i]
    {
      RewriteFixesNamed(c.children[i]);
    }
    assert Rewrite(c).children == c.children;
  }

  /** The pass is idempotent. */
  lemma ProcessIdempotent(root: Node)
    ensures Process(Process(root)) == Process(root)
  {
    var r := Process(root);
    forall i | 0 <= i < |r.children|
      ensures Rewrite(r.children[i]) == r.children[i]
    {
      RewriteNamesAll(root.children[i]);
      RewriteFixesNamed(r.children[i]);
    }
    assert Process(r).children == r.children;
  }

  function Size(n: Node): nat
    decreases n
  {
    1 + SizeAll(n.children)
  }

  function SizeAll(ns: seq<Node>): nat
    decreases ns
  {
    if ns == [] then 0 else Size(ns[0]) + SizeAll(ns[1..])
  }

  /** The number of anonymous defines in the tree, the node itself included. */
  function AnonCount(n: Node): nat
    decreases n
  {
    (if IsAnonymousDefine(n) then 1 else 0) + AnonCountAll(n.children)
  }

  function AnonCountAll(ns: seq<Node>): nat
    decreases ns
  {
    if ns == [] then 0 else AnonCount(ns[0]) + AnonCountAll(ns[1..])
  }

  lemma {:induction false} SizeAllAppend(xs: seq<Node>, ys: seq<Node>)
    ensures SizeAll(xs + ys) == SizeAll(xs) + SizeAll(ys)
  {
    if xs != [] {
      assert (xs + ys)[1..] == xs[1..] + ys;
      SizeAllAppend(xs[1..], ys);
    } else {
      assert xs + ys == ys;
    }
  }

  /** Children rewritten one by one: the size grows by the anonymous defines among them. */
  lemma {:induction false} RewriteAllSize(cs: seq<Node>, kids: seq<Node>)
    requires |kids| == |cs| && forall i :: 0 <= i < |cs| ==> kids[i] == Rewrite(cs[i])
    ensures SizeAll(kids) == SizeAll(cs) + AnonCountAll(cs)
    decreases cs
  {
    if cs != [] {
      RewriteSize(cs[0]);
      RewriteAllSize(cs[1..], kids[1..]);
    }
  }

  /** Nothing but the inserted names is added: the node count grows by the number of anonymous defines. */
  lemma {:induction false} RewriteSize(c: Node)
    ensures Size(Rewrite(c)) == Size(c) + AnonCount(c)
    decreases c
  {
    var kids := seq(|c.children|, i requires 0 <= i < |c.children| => Rewrite(c.children[i]));
    RewriteAllSize(c.children, kids);
    if IsAnonymousDefine(c) {
      InsertedSize(kids, ModuleNameNode(c.children[0]));
    }
  }

  /** Inserting one node after the first of a list adds that node's size. */
  lemma InsertedSize(kids: seq<Node>, n: Node)
    requires kids != []
    ensures SizeAll([kids[0], n] + kids[1..]) == SizeAll(kids) + Size(n)
  {
    assert [kids[0], n] + kids[1..] == [kids[0]] + ([n] + kids[1..]);
    SizeAllAppend([kids[0]], [n] + kids[1..]);
    SizeAllAppend([n], kids[1..]);
    assert kids == [kids[0]] + kids[1..];
    SizeAllAppend([kids[0]], kids[1..]);
  }

  /** The tree height, which bounds the recursion of the imperative pass. */
  function Height(n: Node): nat
    decreases n
  {
    1 + MaxHeight(n.children)
  }

  function MaxHeight(ns: seq<Node>): (h: nat)
    ensures forall i :: 0 <= i < |ns| ==> Height(ns[i]) <= h
    ensures ns != [] ==> exists i :: 0 <= i < |ns| && Height(ns[i]) == h
    decreases ns
  {
    if ns == [] then 0
    else
      var rest := MaxHeight(ns[1..]);
      if Height(ns[0]) >= rest then Height(ns[0]) else rest
  }

  /** The define call with the module name inserted before its first argument (`addChildBefore`). */
  function Named(c: Node): (r: Node)
    requires IsAnonymousDefine(c)
    ensures r.token == c.token && r.str == c.str && r.sourceName == c.sourceName
    ensures |r.children| == |c.children| + 1 && r.children[1] == ModuleNameNode(c.children[0])
    ensures r.children[0] == c.children[0] && r.children[2..] == c.children[1..]
  {
    c.(children := [c.children[0], ModuleNameNode(c.children[0])] + c.children[1..])
  }

  /** Rewriting a child is naming it (when it is an anonymous define) and then processing its children. */
  lemma RewriteIsNameThenProcess(c: Node)
    ensures IsAnonymousDefine(c) ==> Rewrite(c) == Process(Named(c))
    ensures !IsAnonymousDefine(c) ==> Rewrite(c) == Process(c)
  {
    if IsAnonymousDefine(c) {
      NamedThenProcess(c);
    } else {
      assert Rewrite(c).children == Process(c).children;
    }
  }

  /** The inserted STRING has no children, so the pass leaves it as it is. */
  lemma NameIsLeaf(callee: Node)
    ensures Rewrite(ModuleNameNode(callee)) == ModuleNameNode(callee)
  {
    assert Rewrite(ModuleNameNode(callee)).children == [];
  }

  lemma NamedThenProcess(c: Node)
    requires IsAnonymousDefine(c)
    ensures Rewrite(c) == Process(Named(c))
  {
    var n := Named(c);
    var kids := seq(|c.children|, i requires 0 <= i < |c.children| => Rewrite(c.children[i]));
    var rs := [kids[0], ModuleNameNode(c.children[0])] + kids[1..];
    assert Rewrite(c).children == rs;
    var ps := seq(|n.children|, i requires 0 <= i < |n.children| => Rewrite(n.children[i]));
    NameIsLeaf(c.children[0]);
    forall i | 0 <= i < |ps|
      ensures ps[i] == rs[i]
    {
      if i >= 2 {
        assert n.children[i] == c.children[i - 1];
        assert rs[i] == kids[i - 1];
      }
    }
    assert ps == rs;
    assert Process(n) == n.(children := ps);
  }

  /** Naming a define does not make it taller: the inserted STRING is a leaf. */
  lemma NamingKeepsHeight(c: Node)
    requires IsAnonymousDefine(c)
    ensures Height(Named(c)) <= Height(c)
  {
    var name := c.children[0];
    var ns := Named(c).children;
    var m := MaxHeight(c.children);
    assert Height(ModuleNameNode(name)) == 1;
    forall i | 0 <= i < |ns|
      ensures Height(ns[i]) <= m
    {
      if i >= 2 {
        assert ns[i] == c.children[i - 1];
      }
    }
  }

  /**
   * `processChildren(node)`: walks the children in order, inserts the module
   * name into each anonymous define and recurses into every child that has
   * children. The result is the node with its children rewritten.
   */
  method ProcessChildren(node: Node) returns (r: Node)
    ensures r == Process(node)
    decreases Height(node), 1
  {
    var kids: seq<Node> := [];
    for k := 0 to |node.children|
      invariant |kids| == k
      invariant forall i :: 0 <= i < k ==> kids[i] == Rewrite(node.children[i])
    {
      var cursor := VisitChild(node, k);
      kids := kids + [cursor];
    }
    r := node.(children := kids);
  }

  /** One turn of the loop of `processChildren`: the child at `cursor`, named if need be, then processed. */
  method VisitChild(node: Node, k: nat) returns (r: Node)
    requires k < |node.children|
    ensures r == Rewrite(node.children[k])
    decreases Height(node), 0
  {
    var cursor := node.children[k];
    assert Height(cursor) < Height(node);
    RewriteIsNameThenProcess(cursor);
    if IsAnonymousDefine(cursor) {
      // name the define: the callee's source name goes before the first argument
      NamingKeepsHeight(cursor);
      cursor := Named(cursor);
    }
    if |cursor.children| > 0 {
      r := ProcessChildren(cursor);
    } else {
      assert Process(cursor).children == cursor.children;
      r := cursor;
    }
  }
}
