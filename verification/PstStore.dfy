/** The store on top: folders, messages and the nodes registered for them. */
module PstStore {
  import opened Bytes
  import opened NodeId
  import opened Wrappers

  const ROOT_FOLDER: nat := 0x122

  // -------------------------------------------------------------- contents

  /** A folder with its children, the rows of its contents table and its counters. */
  datatype Folder = Folder(nid: nat, parent: nat, name: string, children: seq<nat>, rows: seq<nat>, count: nat, unread: nat)

  /** A registered node. */
  datatype Node = Node(nid: nat, parent: nat)

  /** What the file says of a folder: counters, hierarchy rows, contents rows. */
  datatype Published = Published(nid: nat, count: nat, unread: nat, subfolders: bool, hierarchy: seq<nat>, contents: seq<nat>)

  function FolderNid(i: nat): nat { if i == 0 then ROOT_FOLDER else MakeNid(T_FOLDER, FIRST_INDEX + i - 1) }

  function MessageNid(k: nat): nat { MakeNid(T_MESSAGE, FIRST_INDEX + k) }

  /** The nids of the folders under `parent`, in order; the root is not under itself. */
  function ChildrenOf(folders: seq<Folder>, parent: nat): seq<nat> {
    if |folders| <= 1 then []
    else
      var f := folders[|folders| - 1];
      ChildrenOf(folders[..|folders| - 1], parent) + if f.parent == parent then [f.nid] else []
  }

  /** The nids of the nodes registered under `parent`, in order. */
  function NodesUnder(nodes: seq<Node>, parent: nat): seq<nat> {
    if nodes == [] then []
    else
      var n := nodes[|nodes| - 1];
      NodesUnder(nodes[..|nodes| - 1], parent) + if n.parent == parent then [n.nid] else []
  }

  predicate IsFolder(folders: seq<Folder>, nid: nat) { exists i :: 0 <= i < |folders| && folders[i].nid == nid }

  /** Each folder has the id of its place; the root is its own parent. */
  predicate Identified(folders: seq<Folder>) {
    && 1 <= |folders| && FIRST_INDEX + |folders| - 1 <= MAX_INDEX && folders[0].parent == ROOT_FOLDER
    && forall i :: 0 <= i < |folders| ==> folders[i].nid == FolderNid(i)
  }

  /** Every other folder is under one made before it. */
  predicate Parented(folders: seq<Folder>) {
    forall i :: 1 <= i < |folders| ==> IsFolder(folders[..i], folders[i].parent)
  }

  predicate Childed(folders: seq<Folder>) {
    forall i :: 0 <= i < |folders| ==> folders[i].children == ChildrenOf(folders, folders[i].nid)
  }

  predicate FoldersOk(folders: seq<Folder>) { Identified(folders) && Parented(folders) && Childed(folders) }

  /** A folder's rows are the messages registered under it, and its counters count them. */
  predicate CountsOk(messages: seq<Node>, f: Folder) {
    f.rows == NodesUnder(messages, f.nid) && f.count == |f.rows| && f.unread <= f.count
  }

  /** Messages have ids of their own, and each is under a folder. */
  predicate MessagesOk(folders: seq<Folder>, messages: seq<Node>) {
    && FIRST_INDEX + |messages| <= MAX_INDEX
    && (forall k :: 0 <= k < |messages| ==> messages[k].nid == MessageNid(k) && IsFolder(folders, messages[k].parent))
    && forall i :: 0 <= i < |folders| ==> CountsOk(messages, folders[i])
  }

  lemma FolderNidsDistinct(i: nat, j: nat)
    requires i < j && FIRST_INDEX + j - 1 < MAX_INDEX
    ensures FolderNid(i) != FolderNid(j) && FolderNid(i) != 0 && FolderNid(j) != 0
    ensures NidType(FolderNid(j)) == T_FOLDER && NidIndex(FolderNid(j)) == FIRST_INDEX + j - 1
  {
    NidParts(T_FOLDER, FIRST_INDEX + j - 1);
    if i > 0 { NidParts(T_FOLDER, FIRST_INDEX + i - 1); }
  }

  lemma ChildrenSnoc(folders: seq<Folder>, f: Folder, parent: nat)
    requires folders != []
    ensures ChildrenOf(folders + [f], parent) == ChildrenOf(folders, parent) + if f.parent == parent then [f.nid] else []
  {
    assert (folders + [f])[..|folders|] == folders;
  }

  /** Only the parents and the ids matter. */
  lemma {:induction false} ChildrenSame(a: seq<Folder>, b: seq<Folder>, parent: nat)
    requires |a| == |b| && forall i :: 0 <= i < |a| ==> a[i].parent == b[i].parent && a[i].nid == b[i].nid
    ensures ChildrenOf(a, parent) == ChildrenOf(b, parent)
  {
    if |a| > 1 { ChildrenSame(a[..|a| - 1], b[..|b| - 1], parent); }
  }

  lemma NodesSnoc(nodes: seq<Node>, n: Node, parent: nat)
    ensures NodesUnder(nodes + [n], parent) == NodesUnder(nodes, parent) + if n.parent == parent then [n.nid] else []
  {
    assert (nodes + [n])[..|nodes|] == nodes;
  }

  // ------------------------------------------------------------ tree safety

  /** The folder a walk up the parents reaches after some steps. */
  function Ancestor(folders: seq<Folder>, nid: nat, steps: nat): Option<nat>
    decreases steps
  {
    if steps == 0 then Some(nid)
    else
      match Find(folders, nid)
      case None => None
      case Some(i) => Ancestor(folders, folders[i].parent, steps - 1)
  }

  function Find(folders: seq<Folder>, nid: nat): (r: Option<nat>)
    ensures r.Some? ==> r.value < |folders| && folders[r.value].nid == nid && forall j :: 0 <= j < r.value ==> folders[j].nid != nid
    ensures r.None? ==> forall j :: 0 <= j < |folders| ==> folders[j].nid != nid
  {
    if folders == [] then None
    else if folders[0].nid == nid then Some(0)
    else
      match Find(folders[1..], nid)
      case None => None
      case Some(i) => Some(i + 1)
  }

  lemma FindIs(folders: seq<Folder>, i: nat)
    requires Identified(folders) && i < |folders|
    ensures Find(folders, folders[i].nid) == Some(i)
  {
    var r := Find(folders, folders[i].nid).value;
    if r < i { FolderNidsDistinct(r, i); }
    if i < r { FolderNidsDistinct(i, r); }
  }

  lemma ParentOf(folders: seq<Folder>, i: nat) returns (j: nat)
    requires Parented(folders) && 1 <= i < |folders|
    ensures j < i && folders[i].parent == folders[j].nid
  {
    j :| 0 <= j < |folders[..i]| && folders[..i][j].nid == folders[i].parent;
  }

  /** Every folder's parents lead to the root in no more steps than folders were made
      before it. */
  lemma {:induction false} ReachesRoot(folders: seq<Folder>, i: nat) returns (steps: nat)
    requires FoldersOk(folders) && i < |folders|
    ensures steps <= i && Ancestor(folders, folders[i].nid, steps) == Some(ROOT_FOLDER) && Ancestor(folders, ROOT_FOLDER, 1) == Some(ROOT_FOLDER)
  {
    hide Childed, FolderNid;
    if i == 0 {
      steps := 0;
      assert FolderNid(0) == ROOT_FOLDER by { RootNid(); }
      FindIs(folders, 0);
    } else {
      var j := ParentOf(folders, i);
      var more := ReachesRoot(folders, j);
      FindIs(folders, i);
      steps := more + 1;
    }
  }

  lemma RootNid()
    ensures FolderNid(0) == ROOT_FOLDER
  {
  }

  // ---------------------------------------------------------- adding things

  predicate SameTree(a: seq<Folder>, b: seq<Folder>) {
    |a| == |b| && forall i :: 0 <= i < |a| ==> a[i].nid == b[i].nid && a[i].parent == b[i].parent
  }

  lemma SameTreeOk(a: seq<Folder>, b: seq<Folder>)
    requires SameTree(a, b) && Identified(a) && Parented(a)
    ensures Identified(b) && Parented(b)
  {
    hide FolderNid;
    forall i | 1 <= i < |b| ensures IsFolder(b[..i], b[i].parent) {
      var j := ParentOf(a, i);
      assert b[..i][j].nid == b[i].parent;
    }
  }

  lemma IsFolderMore(a: seq<Folder>, b: seq<Folder>, nid: nat)
    requires IsFolder(a, nid) && |a| <= |b| && forall i :: 0 <= i < |a| ==> b[i].nid == a[i].nid
    ensures IsFolder(b, nid)
  {
    var i :| 0 <= i < |a| && a[i].nid == nid;
    assert b[i].nid == nid;
  }

  /** Nothing is under a folder that does not exist yet. */
  lemma {:induction false} NoneBelow(folders: seq<Folder>, n: nat)
    requires Identified(folders) && Parented(folders) && n <= |folders| && FIRST_INDEX + |folders| - 1 < MAX_INDEX
    ensures ChildrenOf(folders[..n], FolderNid(|folders|)) == []
  {
    hide FolderNid;
    if n > 1 {
      NoneBelow(folders, n - 1);
      assert folders[..n][..n - 1] == folders[..n - 1];
      var j := ParentOf(folders, n - 1);
      FolderNidsDistinct(j, |folders|);
    }
  }

  lemma NewTree(folders: seq<Folder>, f: Folder)
    requires Identified(folders) && Parented(folders) && FIRST_INDEX + |folders| <= MAX_INDEX
    requires f.nid == FolderNid(|folders|) && IsFolder(folders, f.parent)
    ensures Identified(folders + [f]) && Parented(folders + [f])
  {
    hide FolderNid;
    var now := folders + [f];
    forall i | 1 <= i < |now| ensures IsFolder(now[..i], now[i].parent) {
      if i < |folders| { assert now[..i] == folders[..i]; } else { assert now[..i] == folders; }
    }
  }

  function WithChild(folders: seq<Folder>, p: nat, child: nat): (now: seq<Folder>)
    requires p < |folders|
    ensures |now| == |folders|
  {
    folders[p := folders[p].(children := folders[p].children + [child])]
  }

  lemma NewChildren(folders: seq<Folder>, p: nat, f: Folder)
    requires FoldersOk(folders) && p < |folders| && FIRST_INDEX + |folders| <= MAX_INDEX
    requires f.nid == FolderNid(|folders|) && f.parent == folders[p].nid && f.children == []
    ensures Childed(WithChild(folders, p, f.nid) + [f])
  {
    hide FolderNid, ChildrenOf;
    var n, base := |folders|, WithChild(folders, p, f.nid);
    var now := base + [f];
    forall i | 0 <= i < |now| ensures now[i].children == ChildrenOf(now, now[i].nid) {
      ChildrenSame(base, folders, now[i].nid);
      ChildrenSnoc(base, f, now[i].nid);
      if i < p { FolderNidsDistinct(i, p); } else if p < i { FolderNidsDistinct(p, i); }
      if i == n {
        NoneBelow(folders, n);
        assert folders[..n] == folders;
      }
    }
  }

  /** A folder under an existing one. */
  lemma FolderAdded(folders: seq<Folder>, messages: seq<Node>, p: nat, f: Folder)
    requires FoldersOk(folders) && MessagesOk(folders, messages) && p < |folders| && FIRST_INDEX + |folders| <= MAX_INDEX
    requires f == Folder(FolderNid(|folders|), folders[p].nid, f.name, [], [], 0, 0)
    ensures FoldersOk(WithChild(folders, p, f.nid) + [f]) && MessagesOk(WithChild(folders, p, f.nid) + [f], messages)
  {
    hide FolderNid, ChildrenOf, NodesUnder, MessageNid;
    var base := WithChild(folders, p, f.nid);
    var now := base + [f];
    SameTreeOk(folders, base);
    assert base[p].nid == f.parent;
    NewTree(base, f);
    NewChildren(folders, p, f);
    NoMessagesYet(folders, messages);
    forall k | 0 <= k < |messages| ensures IsFolder(now, messages[k].parent) { IsFolderMore(folders, now, messages[k].parent); }
    forall i | 0 <= i < |now| ensures CountsOk(messages, now[i]) {
      if i < |folders| { assert CountsOk(messages, folders[i]); }
    }
  }

  lemma {:induction false} NoMessagesYet(folders: seq<Folder>, messages: seq<Node>)
    requires Identified(folders) && FIRST_INDEX + |folders| - 1 < MAX_INDEX
    requires forall k :: 0 <= k < |messages| ==> IsFolder(folders, messages[k].parent)
    ensures NodesUnder(messages, FolderNid(|folders|)) == []
  {
    hide FolderNid;
    if messages != [] {
      var n := |messages| - 1;
      NoMessagesYet(folders, messages[..n]);
      assert IsFolder(folders, messages[n].parent);
      var i :| 0 <= i < |folders| && folders[i].nid == messages[n].parent;
      FolderNidsDistinct(i, |folders|);
    }
  }

  function WithMessage(folders: seq<Folder>, p: nat, nid: nat, seen: bool): (now: seq<Folder>)
    requires p < |folders|
    ensures |now| == |folders|
  {
    var f := folders[p];
    folders[p := f.(rows := f.rows + [nid], count := f.count + 1, unread := f.unread + if seen then 0 else 1)]
  }

  lemma OnlyFolder(folders: seq<Folder>, p: nat)
    requires FoldersOk(folders) && p < |folders|
    ensures forall i :: 0 <= i < |folders| && i != p ==> folders[i].nid != folders[p].nid
  {
    hide Parented, Childed;
    forall i | 0 <= i < |folders| && i != p ensures folders[i].nid != folders[p].nid {
      if i < p { FolderNidsDistinct(i, p); } else { FolderNidsDistinct(p, i); }
    }
  }

  /** A message under a folder: a node, a row, and the counters. */
  lemma MessageAdded(folders: seq<Folder>, messages: seq<Node>, p: nat, seen: bool)
    requires FoldersOk(folders) && MessagesOk(folders, messages) && p < |folders| && FIRST_INDEX + |messages| < MAX_INDEX
    ensures var nid := MessageNid(|messages|);
            var now, all := WithMessage(folders, p, nid, seen), messages + [Node(nid, folders[p].nid)];
            FoldersOk(now) && MessagesOk(now, all)
  {
    hide FolderNid, ChildrenOf, NodesUnder, MessageNid;
    var nid := MessageNid(|messages|);
    var now, n := WithMessage(folders, p, nid, seen), Node(nid, folders[p].nid);
    var all := messages + [n];
    SameTreeOk(folders, now);
    forall i | 0 <= i < |now| ensures now[i].children == ChildrenOf(now, now[i].nid) { ChildrenSame(now, folders, now[i].nid); }
    assert now[p].nid == n.parent;
    forall k | 0 <= k < |all| ensures IsFolder(now, all[k].parent) {
      if k < |messages| { IsFolderMore(folders, now, messages[k].parent); }
    }
    forall i | 0 <= i < |now| ensures CountsOk(all, now[i]) {
      assert CountsOk(messages, folders[i]);
      NodesSnoc(messages, n, now[i].nid);
      if i < p { FolderNidsDistinct(i, p); } else if p < i { FolderNidsDistinct(p, i); }
    }
  }

  // --------------------------------------------------------- the whole list

  predicate Distinct(nodes: seq<Node>) { forall i, j :: 0 <= i < j < |nodes| ==> nodes[i].nid != nodes[j].nid }

  function FolderType(j: nat): (t: nat)
    ensures t < 32
  {
    if j == 0 then T_FOLDER else if j == 1 then T_HIERARCHY else if j == 2 then T_CONTENTS else T_ASSOC
  }

  /** The folder object and its three tables. */
  function NodeOf(f: Folder, j: nat): Node {
    if j == 0 then Node(f.nid, f.parent) else Node(MakeNid(FolderType(j), NidIndex(f.nid)), f.nid)
  }

  function FolderNodes(folders: seq<Folder>): (nodes: seq<Node>)
    ensures |nodes| == 4 * |folders|
  {
    if folders == [] then []
    else
      var f := folders[|folders| - 1];
      FolderNodes(folders[..|folders| - 1]) + [NodeOf(f, 0), NodeOf(f, 1), NodeOf(f, 2), NodeOf(f, 3)]
  }

  lemma {:induction false} FolderNodesAt(folders: seq<Folder>, i: nat, j: nat)
    requires i < |folders| && j < 4
    ensures FolderNodes(folders)[4 * i + j] == NodeOf(folders[i], j)
  {
    var n := |folders| - 1;
    if i < n { FolderNodesAt(folders[..n], i, j); }
  }

  /** The nodes every store comes with: table templates, search objects, indexes, the
      message store and the name map. */
  function Reserved(): (nodes: seq<Node>) { Templates() + Internals() }

  /** Types and indexes of the table templates. */
  function TemplateKinds(): (kinds: seq<(nat, nat)>) {
    [(0x0D, 0x30), (0x0E, 0x30), (0x0F, 0x30), (0x10, 0x30), (0x0B, 0x31), (0x0C, 0x32), (0x11, 0x33), (0x12, 0x34), (0x16, 0x35),
     (0x17, 0x36), (0x18, 0x37)]
  }

  function Templates(): (nodes: seq<Node>)
    ensures |nodes| == 11
  {
    seq(11, i requires 0 <= i < 11 => Node(MakeNid(TemplateKinds()[i].0, TemplateKinds()[i].1), 0))
  }

  function Internals(): (nodes: seq<Node>) {
    [Node(0x201, 0), Node(0x261, 0), Node(0xC01, 0), Node(0xE01, 0), Node(0x1E1, 0), Node(0xE41, 0), Node(0xEC1, 0), Node(0xF21, 0),
     Node(0x21, 0), Node(0x61, 0)]
  }

  lemma TemplateKind(i: nat)
    requires i < 11
    ensures var nid, k := Templates()[i].nid, TemplateKinds()[i];
            NidType(nid) == k.0 && NidIndex(nid) == k.1 && 0x30 <= k.1 < FIRST_INDEX && k.0 != T_MESSAGE && k.0 != T_FOLDER && k.0 != T_INTERNAL
  {
    hide MakeNid, NidType, NidIndex;
    NidParts(TemplateKinds()[i].0, TemplateKinds()[i].1);
  }

  lemma InternalKinds(r: nat)
    requires r < |Internals()|
    ensures var nid := Internals()[r].nid; NidType(nid) == T_INTERNAL && NidIndex(nid) < FIRST_INDEX && NidIndex(nid) != 9 && nid < U32
  {
  }

  lemma ReservedKinds(r: nat)
    requires r < |Reserved()|
    ensures var nid := Reserved()[r].nid;
            && NidType(nid) != T_MESSAGE && NidType(nid) != T_FOLDER && NidIndex(nid) < FIRST_INDEX && NidIndex(nid) != 9 && nid < U32
    ensures Reserved()[r].parent == 0
  {
    hide NidType, NidIndex, Internals, TemplateKinds, MakeNid;
    if r < 11 { TemplateKind(r); } else { InternalKinds(r - 11); InternalParents(); }
  }

  lemma InternalParents()
    ensures forall r :: 0 <= r < |Internals()| ==> Internals()[r].parent == 0
  {
  }

  lemma ReservedDistinct()
    ensures Distinct(Reserved())
  {
    TemplatesDistinct();
    InternalsDistinct();
    hide Templates, Internals;
    DistinctConcat(Templates(), Internals());
  }

  lemma TemplatesDistinct()
    ensures Distinct(Templates()) && forall i :: 0 <= i < |Templates()| ==> NidType(Templates()[i].nid) != T_INTERNAL
  {
    hide MakeNid, NidType, NidIndex;
    forall i | 0 <= i < 11 ensures NidType(Templates()[i].nid) == TemplateKinds()[i].0 != T_INTERNAL { TemplateKind(i); }
    assert forall i, j :: 0 <= i < j < 11 ==> TemplateKinds()[i].0 != TemplateKinds()[j].0;
  }

  lemma InternalsDistinct()
    ensures Distinct(Internals()) && forall i :: 0 <= i < |Internals()| ==> NidType(Internals()[i].nid) == T_INTERNAL
  {
  }

  lemma FolderIndex(i: nat)
    requires FIRST_INDEX + i - 1 < MAX_INDEX
    ensures NidType(FolderNid(i)) == T_FOLDER && NidIndex(FolderNid(i)) == if i == 0 then 9 else FIRST_INDEX + i - 1
  {
    if i > 0 { NidParts(T_FOLDER, FIRST_INDEX + i - 1); }
  }

  lemma NodeOfKind(f: Folder, i: nat, j: nat)
    requires f.nid == FolderNid(i) && FIRST_INDEX + i - 1 < MAX_INDEX && j < 4
    ensures NidType(NodeOf(f, j).nid) == FolderType(j) && NidIndex(NodeOf(f, j).nid) == if i == 0 then 9 else FIRST_INDEX + i - 1
  {
    FolderIndex(i);
    if j > 0 { NidParts(FolderType(j), NidIndex(f.nid)); }
  }

  /** The type and the place of a folder's nodes. */
  lemma {:induction false} FolderNodeKind(folders: seq<Folder>, k: nat)
    requires Identified(folders) && k < 4 * |folders|
    ensures var i, nid := k / 4, FolderNodes(folders)[k].nid;
            NidType(nid) == FolderType(k % 4) && NidIndex(nid) == if i == 0 then 9 else FIRST_INDEX + i - 1
  {
    FolderNodesAt(folders, k / 4, k % 4);
    NodeOfKind(folders[k / 4], k / 4, k % 4);
  }

  lemma FolderNodesDistinct(folders: seq<Folder>)
    requires Identified(folders)
    ensures Distinct(FolderNodes(folders))
  {
    hide Identified, FolderNodes;
    forall a, b | 0 <= a < b < 4 * |folders| ensures FolderNodes(folders)[a].nid != FolderNodes(folders)[b].nid {
      FolderNodeKind(folders, a);
      FolderNodeKind(folders, b);
    }
  }

  lemma MessagesDistinct(messages: seq<Node>)
    requires FIRST_INDEX + |messages| <= MAX_INDEX && forall k :: 0 <= k < |messages| ==> messages[k].nid == MessageNid(k)
    ensures Distinct(messages) && forall k :: 0 <= k < |messages| ==> NidType(messages[k].nid) == T_MESSAGE
  {
    forall k | 0 <= k < |messages| ensures NidType(messages[k].nid) == T_MESSAGE && NidIndex(messages[k].nid) == FIRST_INDEX + k {
      NidParts(T_MESSAGE, FIRST_INDEX + k);
    }
  }

  lemma DistinctConcat(a: seq<Node>, b: seq<Node>)
    requires Distinct(a) && Distinct(b) && forall i, j :: 0 <= i < |a| && 0 <= j < |b| ==> a[i].nid != b[j].nid
    ensures Distinct(a + b)
  {
  }

  /** No node id is used twice in a finished store. */
  lemma AllDistinct(folders: seq<Folder>, messages: seq<Node>)
    requires FoldersOk(folders) && MessagesOk(folders, messages)
    ensures Distinct(messages + FolderNodes(folders) + Reserved())
  {
    hide NodesUnder, ChildrenOf, FolderNodes, Reserved, Parented, Childed;
    MessagesDistinct(messages);
    FolderNodesDistinct(folders);
    ReservedDistinct();
    forall i, j | 0 <= i < |messages| && 0 <= j < |FolderNodes(folders)| ensures messages[i].nid != FolderNodes(folders)[j].nid {
      FolderNodeKind(folders, j);
    }
    DistinctConcat(messages, FolderNodes(folders));
    var front := messages + FolderNodes(folders);
    forall i, j | 0 <= i < |front| && 0 <= j < |Reserved()| ensures front[i].nid != Reserved()[j].nid {
      ReservedKinds(j);
      if i >= |messages| { FolderNodeKind(folders, i - |messages|); }
    }
    DistinctConcat(front, Reserved());
  }

  function Publication(f: Folder): Published {
    Published(f.nid, f.count, f.unread, f.children != [], f.children, f.rows)
  }

  /** What the file says of its folders fits together: a folder's hierarchy table lists the
      folders under it, its contents table the message nodes under it, its count is their
      number, and unread never exceeds it. */
  ghost predicate Consistent(folders: seq<Folder>, messages: seq<Node>, out: seq<Published>) {
    |out| == |folders| && forall i :: 0 <= i < |out| ==>
      && out[i].nid == folders[i].nid && out[i].count == |out[i].contents| && out[i].unread <= out[i].count
      && out[i].contents == NodesUnder(messages, folders[i].nid)
      && out[i].hierarchy == ChildrenOf(folders, folders[i].nid) && (out[i].subfolders <==> out[i].hierarchy != [])
  }

  class PstStore {
    var folders: seq<Folder>
    var nodes: seq<Node>
    var nextFolder: nat
    var nextMessage: nat
    var finished: bool

    ghost predicate Valid()
      reads this
    {
      && !finished && FoldersOk(folders) && MessagesOk(folders, nodes)
      && nextFolder == FIRST_INDEX + |folders| - 1 && nextMessage == FIRST_INDEX + |nodes|
    }

    /** The root, the subtree everything hangs off, and the folders the store advertises. */
    constructor ()
      ensures Valid() && nodes == [] && |folders| == 8
    {
      hide FoldersOk, MessagesOk;
      folders := [Folder(ROOT_FOLDER, ROOT_FOLDER, "Root - Mailbox", [], [], 0, 0)];
      nodes, nextFolder, nextMessage, finished := [], FIRST_INDEX, FIRST_INDEX, false;
      new;
      RootAlone(folders[0]);
      var subtree := MakeFolder(ROOT_FOLDER, 0, "Top of Personal Folders");
      var deleted := MakeFolder(subtree, 1, "Deleted Items");
      var sent := MakeFolder(subtree, 1, "Sent Items");
      var outbox := MakeFolder(subtree, 1, "Outbox");
      var search := MakeFolder(ROOT_FOLDER, 0, "Search Root");
      var views := MakeFolder(ROOT_FOLDER, 0, "Views");
      var common := MakeFolder(ROOT_FOLDER, 0, "Common Views");
    }

    /** A folder gets the next id and is filed under its parent. */
    method MakeFolder(parent: nat, ghost p: nat, name: string) returns (nid: nat)
      requires Valid() && nextFolder < MAX_INDEX && p < |folders| && folders[p].nid == parent
      modifies `folders, `nextFolder
      ensures Valid() && nid == FolderNid(|old(folders)|) && nextFolder == old(nextFolder) + 1
      ensures folders == WithChild(old(folders), p, nid) + [Folder(nid, parent, name, [], [], 0, 0)]
      ensures forall i :: 0 <= i < |old(folders)| ==> folders[i].nid == old(folders)[i].nid
    {
      hide FoldersOk, MessagesOk;
      Numbers(folders);
      nid := MakeNid(T_FOLDER, nextFolder);
      nextFolder := nextFolder + 1;
      ghost var was := folders;
      var f := Folder(nid, parent, name, [], [], 0, 0);
      FolderAdded(was, nodes, p, f);
      folders := folders + [f];
      for k := 0 to |folders|
        invariant folders == was + [f] && forall j :: 0 <= j < k ==> folders[j].nid != parent
      {
        if folders[k].nid == parent {
          FirstIs(was, f, p, k, parent);
          folders := folders[k := folders[k].(children := folders[k].children + [nid])];
          break;
        }
      }
      assert folders == WithChild(was, p, nid) + [f];
    }

    /** A folder for a caller, who must name an existing parent. */
    method CreateFolder(parent: nat, name: string) returns (r: Result<nat>)
      requires Valid() && nextFolder < MAX_INDEX
      modifies `folders, `nextFolder
      ensures Valid() && (r.Ok? <==> IsFolder(old(folders), parent)) && (r.Err? ==> unchanged(this))
      ensures r.Ok? ==> r.value == FolderNid(|old(folders)|) && |folders| == |old(folders)| + 1
                        && folders[|old(folders)|] == Folder(r.value, parent, name, [], [], 0, 0)
      ensures |old(folders)| <= |folders| && forall i :: 0 <= i < |old(folders)| ==>
                folders[i].nid == old(folders)[i].nid && folders[i].rows == old(folders)[i].rows
    {
      hide FoldersOk, MessagesOk;
      var p := Find(folders, parent);
      if p.None? {
        return Err("unknown folder id");
      }
      var nid := MakeFolder(parent, p.value, name);
      return Ok(nid);
    }

    /** A message: a node under its folder, a row in the folder's contents table. */
    method AddMessage(folder: nat, seen: bool) returns (r: Result<nat>)
      requires Valid() && nextMessage < MAX_INDEX
      modifies `folders, `nodes, `nextMessage
      ensures Valid() && (r.Ok? <==> IsFolder(old(folders), folder)) && (r.Err? ==> unchanged(this))
      ensures r.Ok? ==> r.value == MessageNid(|old(nodes)|) && nodes == old(nodes) + [Node(r.value, folder)]
      ensures r.Ok? ==> exists p :: 0 <= p < |old(folders)| && folders == WithMessage(old(folders), p, r.value, seen)
                                    && old(folders)[p].nid == folder
      ensures |folders| == |old(folders)| && forall i :: 0 <= i < |folders| ==> folders[i].nid == old(folders)[i].nid
      ensures r.Ok? ==> forall i :: 0 <= i < |folders| ==>
                folders[i].rows == old(folders)[i].rows + if folders[i].nid == folder then [r.value] else []
    {
      hide FoldersOk, MessagesOk;
      var p := Find(folders, folder);
      if p.None? {
        return Err("unknown folder id");
      }
      var nid := MakeNid(T_MESSAGE, nextMessage);
      MessageAdded(folders, nodes, p.value, seen);
      OnlyFolder(folders, p.value);
      nextMessage := nextMessage + 1;
      nodes := nodes + [Node(nid, folder)];
      folders := WithMessage(folders, p.value, nid, seen);
      return Ok(nid);
    }

    /** Registers the folders' nodes and the reserved ones, and publishes the folders. */
    method Finish() returns (out: seq<Published>)
      requires Valid()
      modifies this
      ensures finished && folders == old(folders)
      ensures nodes == old(nodes) + FolderNodes(folders) + Reserved() && Distinct(nodes)
      ensures Consistent(folders, old(nodes), out)
    {
      hide FoldersOk, MessagesOk, Reserved;
      finished := true;
      ghost var messages := nodes;
      AllDistinct(folders, nodes);
      out := [];
      assert messages + [] == messages;
      for i := 0 to |folders|
        invariant folders == old(folders) && finished
        invariant nodes == messages + FolderNodes(folders[..i])
        invariant |out| == i && forall k :: 0 <= k < i ==> out[k] == Publication(folders[k])
      {
        var f := folders[i];
        assert folders[..i + 1][..i] == folders[..i];
        out := out + [Published(f.nid, f.count, f.unread, |f.children| > 0, f.children, f.rows)];
        nodes := nodes + [NodeOf(f, 0)];
        nodes := nodes + [NodeOf(f, 1)];
        nodes := nodes + [NodeOf(f, 2)];
        nodes := nodes + [NodeOf(f, 3)];
      }
      assert folders[..|folders|] == folders;
      nodes := nodes + Reserved();
      Publishes(folders, messages, out);
    }
  }

  lemma RootAlone(f: Folder)
    requires f == Folder(ROOT_FOLDER, ROOT_FOLDER, f.name, [], [], 0, 0)
    ensures FoldersOk([f]) && MessagesOk([f], [])
  {
  }

  lemma Numbers(folders: seq<Folder>)
    requires FoldersOk(folders)
    ensures |folders| >= 1 && MakeNid(T_FOLDER, FIRST_INDEX + |folders| - 1) == FolderNid(|folders|)
  {
  }

  /** The first folder with the parent's id is the parent. */
  lemma FirstIs(folders: seq<Folder>, f: Folder, p: nat, k: nat, parent: nat)
    requires FoldersOk(folders) && p < |folders| && folders[p].nid == parent && k < |folders + [f]| && (folders + [f])[k].nid == parent
    requires forall j :: 0 <= j < k ==> (folders + [f])[j].nid != parent
    ensures k == p
  {
    hide Parented, Childed, FolderNid;
    assert (folders + [f])[p].nid == parent;
    if k < p { FolderNidsDistinct(k, p); }
  }

  lemma Publishes(folders: seq<Folder>, messages: seq<Node>, out: seq<Published>)
    requires FoldersOk(folders) && MessagesOk(folders, messages)
    requires |out| == |folders| && forall k :: 0 <= k < |out| ==> out[k] == Publication(folders[k])
    ensures Consistent(folders, messages, out)
  {
    hide Identified, Parented, FolderNid, NodesUnder, ChildrenOf;
    forall i | 0 <= i < |out| ensures CountsOk(messages, folders[i]) {
    }
  }

  /** What a folder's rows list: every message node under it, and nothing else. */
  lemma {:induction false} RowsExact(nodes: seq<Node>, parent: nat, nid: nat)
    ensures nid in NodesUnder(nodes, parent) <==> exists k :: 0 <= k < |nodes| && nodes[k] == Node(nid, parent)
  {
    if nodes != [] {
      var n := |nodes| - 1;
      RowsExact(nodes[..n], parent, nid);
      if k :| 0 <= k < |nodes| && nodes[k] == Node(nid, parent) {
        if k < n { assert nodes[..n][k] == Node(nid, parent); }
      }
    }
  }

  /** What a folder's hierarchy lists: every folder under it but the root. */
  lemma {:induction false} ChildrenExact(folders: seq<Folder>, parent: nat, nid: nat)
    ensures nid in ChildrenOf(folders, parent) <==> exists i :: 1 <= i < |folders| && folders[i].parent == parent && folders[i].nid == nid
  {
    if |folders| > 1 {
      var n := |folders| - 1;
      ChildrenExact(folders[..n], parent, nid);
      if i :| 1 <= i < |folders| && folders[i].parent == parent && folders[i].nid == nid {
        if i < n { assert folders[..n][i] == folders[i]; }
      }
    }
  }
}
