/** `Node.get_sub_code`: a user's subscription text, one SSR link per line
    for every node the user may see, in the order of the node table's
    primary key. */
module Subscription {
  import opened Common
  import opened Records
  import opened Collections
  import Links
  import Base64Url

  /** The key `Node.Meta.ordering = ['id']` sorts by. */
  function NodeKey(n: Node): int {
    n.id
  }

  /** The query `level__lte=user.level, show='显示'`. */
  predicate Listed(node: Node, userLevel: int) {
    node.level <= userLevel && node.show == Shown
  }

  function ListedFor(userLevel: int): Node -> bool {
    n => Listed(n, userLevel)
  }

  /** The node queryset: the listed rows of the table, ascending by `id`. */
  function ListedNodes(nodes: seq<Node>, userLevel: int): (r: seq<Node>)
    ensures SortedBy(r, NodeKey)
    ensures multiset(r) == multiset(Filter(nodes, ListedFor(userLevel)))
    ensures forall i :: 0 <= i < |r| ==> r[i] in nodes && Listed(r[i], userLevel)
    ensures forall i :: 0 <= i < |nodes| && Listed(nodes[i], userLevel) ==> nodes[i] in r
  {
    var listed := Filter(nodes, ListedFor(userLevel));
    var r := SortBy(listed, NodeKey);
    FilterMembers(nodes, ListedFor(userLevel));
    assert forall i :: 0 <= i < |r| ==> r[i] in multiset(listed);
    assert forall i :: 0 <= i < |nodes| && Listed(nodes[i], userLevel) ==> nodes[i] in multiset(r);
    r
  }

  /** Each line followed by a newline, as the loop of `get_sub_code` appends. */
  function JoinLines(lines: seq<seq<byte>>): seq<byte>
    decreases |lines|
  {
    if |lines| == 0 then [] else lines[0] + [Newline] + JoinLines(lines[1..])
  }

  /** `Node.get_sub_code(user)`. The level compared is the level of the
      site account `user`; the links use the proxy account `user.ss_user`. */
  function SubCode(nodes: seq<Node>, userLevel: int, ssUser: SSUser): (text: seq<byte>)
    ensures text == [] <==> forall i :: 0 <= i < |nodes| ==> !Listed(nodes[i], userLevel)
  {
    var listed := ListedNodes(nodes, userLevel);
    var lines := LinksOf(listed, ssUser);
    assert |lines| > 0 ==> JoinLines(lines) != [] by {
      if |lines| > 0 {
        assert |JoinLines(lines)| > 0;
      }
    }
    JoinLines(lines)
  }

  /** The links of a sequence of nodes, one per node. */
  function LinksOf(nodes: seq<Node>, user: SSUser): (r: seq<seq<byte>>)
    ensures |r| == |nodes|
    ensures forall i :: 0 <= i < |r| ==> r[i] == Links.SsrLink(nodes[i], user)
  {
    seq(|nodes|, i requires 0 <= i < |nodes| => Links.SsrLink(nodes[i], user))
  }

  /** A client's reading of a subscription: newline-terminated lines. */
  function SplitLines(text: seq<byte>): Option<seq<seq<byte>>>
    decreases |text|
  {
    if |text| == 0 then Some([])
    else
      var split :- SplitFirst(text, Newline);
      var rest :- SplitLines(split.1);
      Some([split.0] + rest)
  }

  lemma LinkHasNoNewline(node: Node, user: SSUser)
    ensures Newline !in Links.SsrLink(node, user)
  {
    var link := Links.SsrLink(node, user);
    assert link[..|Links.SsrScheme|] == Links.SsrScheme;
    forall i | 0 <= i < |link|
      ensures link[i] != Newline
    {
      if i < |Links.SsrScheme| {
        assert link[i] == Links.SsrScheme[i];
      }
    }
  }

  /** Splitting joined lines gives them back when none holds a newline. */
  lemma {:induction false} SplitJoinLines(lines: seq<seq<byte>>)
    requires forall i :: 0 <= i < |lines| ==> Newline !in lines[i]
    ensures SplitLines(JoinLines(lines)) == Some(lines)
    decreases |lines|
  {
    if |lines| > 0 {
      var text, rest := JoinLines(lines), JoinLines(lines[1..]);
      assert text == lines[0] + [Newline] + rest;
      SplitFirstOf(lines[0], Newline, rest);
      assert forall i :: 0 <= i < |lines[1..]| ==> Newline !in lines[1..][i];
      SplitJoinLines(lines[1..]);
      assert |text| > 0;
      assert SplitLines(text) == Some([lines[0]] + lines[1..]);
      assert lines == [lines[0]] + lines[1..];
    }
  }

  /** The subscription holds exactly one SSR link per listed node, one per
      line: its lines are the links of the listed nodes taken in ascending
      `id` order, those nodes are the listed rows of the table with their
      multiplicities, and an empty subscription means no node is listed. */
  lemma SubscriptionContents(nodes: seq<Node>, userLevel: int, ssUser: SSUser)
    ensures var listed := ListedNodes(nodes, userLevel);
      && SplitLines(SubCode(nodes, userLevel, ssUser)) == Some(LinksOf(listed, ssUser))
      && SortedBy(listed, NodeKey)
      && multiset(listed) == multiset(Filter(nodes, ListedFor(userLevel)))
      && |listed| == Count(nodes, ListedFor(userLevel))
  {
    var listed := ListedNodes(nodes, userLevel);
    var lines := LinksOf(listed, ssUser);
    forall i | 0 <= i < |lines|
      ensures Newline !in lines[i]
    {
      LinkHasNoNewline(listed[i], ssUser);
    }
    SplitJoinLines(lines);
    CountIsFilterLength(nodes, ListedFor(userLevel));
    assert |listed| == |multiset(listed)|;
  }
}
