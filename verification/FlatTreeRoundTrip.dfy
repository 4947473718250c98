/**
  Writing a whole device tree with the sequential writer and reading it back.
*/
module FlatTreeRoundTrip {

  import opened Common
  import opened FlatTree
  import opened FlatTreeReader

  type Props = seq<(Bytes, Bytes)>

  /** Names are C strings, and lengths fit an int. */
  predicate PropsOk(props: Props) {
    forall i | 0 <= i < |props| :: 0 !in props[i].0 && |props[i].1| < 0x8000_0000
  }

  predicate NodeOk(n: Node) {
    0 !in n.name && PropsOk(n.props) && forall i | 0 <= i < |n.kids| :: NodeOk(n.kids[i])
  }

  /** Room that is enough for the properties, and for a tree, whatever names are in the string table. */
  function PropsRoom(props: Props): nat {
    if props == [] then 0 else Size(Prop(props[0].0, props[0].1)) + |props[0].0| + 1 + PropsRoom(props[1..])
  }

  function Room(n: Node): nat {
    Size(BeginNode(n.name)) + PropsRoom(n.props) + RoomAll(n.kids) + 4
  }

  function RoomAll(kids: seq<Node>): nat {
    if kids == [] then 0 else Room(kids[0]) + RoomAll(kids[1..])
  }

  // ----- writing

  /** fdt_property for each property in turn. */
  method WriteProps(w: Writer, props: Props) returns (err: int)
    requires w.Valid() && PropsOk(props)
    modifies w
    ensures w.Valid() && w.base == old(w.base) && |w.bytes| == old(|w.bytes|)
    ensures err == 0 ==> w.toks == old(w.toks) + PropTokens(props)
    ensures err == 0 ==> w.base + w.size + w.strings <= old(w.base + w.size + w.strings) + PropsRoom(props)
    ensures old(w.base + w.size + w.strings) + PropsRoom(props) <= |w.bytes| ==> err == 0
    decreases |props|
  {
    hide Open, Size;
    if props == [] {
      return 0;
    }
    err := w.Property(props[0].0, props[0].1);
    if err != 0 {
      return;
    }
    err := WriteProps(w, props[1..]);
  }

  /** fdt_begin_node, the properties, the subnodes, fdt_end_node. */
  method WriteNode(w: Writer, n: Node) returns (err: int)
    requires w.Valid() && NodeOk(n)
    modifies w
    ensures w.Valid() && w.base == old(w.base) && |w.bytes| == old(|w.bytes|)
    ensures err == 0 ==> w.toks == old(w.toks) + Written(n)
    ensures err == 0 ==> w.base + w.size + w.strings <= old(w.base + w.size + w.strings) + Room(n)
    ensures old(w.base + w.size + w.strings) + Room(n) <= |w.bytes| ==> err == 0
    decreases n
  {
    hide Open, Size, WrittenAll, RoomAll, PropsRoom, PropTokens;
    err := w.Begin(n.name);
    if err != 0 {
      return;
    }
    err := WriteProps(w, n.props);
    if err != 0 {
      return;
    }
    err := WriteAll(w, n.kids);
    if err != 0 {
      return;
    }
    err := w.PutTag(EndNode);
  }

  method WriteAll(w: Writer, kids: seq<Node>) returns (err: int)
    requires w.Valid() && forall i | 0 <= i < |kids| :: NodeOk(kids[i])
    modifies w
    ensures w.Valid() && w.base == old(w.base) && |w.bytes| == old(|w.bytes|)
    ensures err == 0 ==> w.toks == old(w.toks) + WrittenAll(kids)
    ensures err == 0 ==> w.base + w.size + w.strings <= old(w.base + w.size + w.strings) + RoomAll(kids)
    ensures old(w.base + w.size + w.strings) + RoomAll(kids) <= |w.bytes| ==> err == 0
    decreases kids
  {
    hide Open, Written, Room;
    if kids == [] {
      return 0;
    }
    err := WriteNode(w, kids[0]);
    if err != 0 {
      return;
    }
    err := WriteAll(w, kids[1..]);
  }

  // ----- the tokens of a tree

  lemma {:induction false} PropsNoEnd(props: Props)
    ensures End !in PropTokens(props)
  {
    if props != [] {
      PropsNoEnd(props[1..]);
    }
  }

  lemma {:induction false} NoEnd(n: Node)
    ensures End !in Written(n)
    decreases n
  {
    hide WrittenAll, PropTokens;
    PropsNoEnd(n.props);
    NoEndAll(n.kids);
  }

  lemma {:induction false} NoEndAll(kids: seq<Node>)
    ensures End !in WrittenAll(kids)
    decreases kids
  {
    hide Written;
    if kids != [] {
      NoEnd(kids[0]);
      NoEndAll(kids[1..]);
    }
  }

  // The last token before the terminator ends the root, so no run of properties meets the terminator.
  lemma {:induction false} NoRun(toks: seq<Token>, k: nat)
    requires |toks| >= 2 && toks[|toks| - 2] == EndNode && End !in toks[..|toks| - 1] && k < |toks| - 1
    ensures !HitsEnd(toks, k)
    decreases |toks| - k
  {
    assert toks[k] in toks[..|toks| - 1];
    if k + 1 < |toks| - 1 {
      NoRun(toks, k + 1);
    }
  }

  lemma TreeTokens(root: Node, toks: seq<Token>)
    requires toks == Written(root) + [End]
    ensures |toks| >= 2 && toks[0] == BeginNode(root.name) && toks[|toks| - 1] == End && Solid(toks) &&
            Stands(toks, 0, Written(root))
  {
    hide Written, WrittenAll, PropTokens, Stands, HitsEnd;
    NoEnd(root);
    StandsFirst(Written(root), [End]);
    NodeParts(toks, 0, root);
    assert toks[..|toks| - 1] == Written(root);
    forall k | 0 <= k < |toks| && toks[k].BeginNode?
      ensures !HitsEnd(toks, k + 1)
    {
      NoRun(toks, k + 1);
    }
  }

  /**
    A tree is written into a buffer, finished, and read back by walking its nodes and looking up a property by name.
    With enough room this succeeds, and whenever it succeeds the names, the depths and the values are those of the tree.
  */
  method RoundTrip(root: Node, bufsize: nat, off: nat, want: Bytes)
    returns (ok: bool, name: Bytes, val: Value, below: seq<Sight>)
    requires off <= bufsize < LIMIT && NodeOk(root) && 0 !in want
    ensures off + Room(root) + 4 <= bufsize ==> ok
    ensures ok ==> name == root.name && val == ValueOf(root, want) && below == PreorderAll(root.kids, 1, want)
  {
    hide Open, Shows, Written, Room, NodeOk, Visited, PreorderAll, ValueOf, ValueAt, Laid, Start, HitsEnd, Stands;
    ok, name, val, below := false, [], Absent, [];
    var w := new Writer(bufsize, off);
    var err := WriteNode(w, root);
    if err != 0 {
      return;
    }
    assert w.toks == Written(root);
    NoEnd(root);
    err := w.Finish();
    if err != 0 {
      return;
    }
    var f := Blob(w.bytes, w.base, w.size, w.table, w.strings);
    FinishedFits(f, w.toks, w.offs);
    TreeTokens(root, w.toks);
    TreeVisited(root, want);
    NodeProps(w.toks, 0, root, want);
    StartZero(w.toks);
    HasAt(f, w.toks, w.offs, 0);
    var found;
    found, name := GetName(f, 0, w.toks[0], w.offs[0]);
    var out := GetProp(f, 0, want, f.size + 4, w.toks, w.offs, 0);
    ValueIs(w.toks, want);
    val := if out.r >= 0 then Present(out.val) else Absent;
    below := ReadBelow(f, want, w.toks, w.offs);
    ok := true;
  }

  lemma ValueIs(toks: seq<Token>, want: Bytes)
    ensures var i := FirstProp(toks, 1, want);
            ValueAt(toks, 0, want) == if i < 0 then Absent else Present(toks[i].val)
  {
  }

  lemma FinishedFits(f: Blob, toks: seq<Token>, offs: seq<int>)
    requires Shows(f.bytes, f.base, f.size, f.table, f.strings, toks, offs)
    ensures Has(f, toks, offs)
  {
  }
}
