/**
  Reading a finished flattened device tree: the walk from node to node, property lookup by name, and what
  both say about a tree that was written out.
*/
module FlatTreeReader {

  import opened Common
  import opened FlatTree

  /** A blob with its header fields. */
  datatype Blob = Blob(bytes: Bytes, base: nat, size: nat, table: nat, strings: nat)

  predicate Fits(f: Blob) {
    f.base + f.size <= |f.bytes| < LIMIT && f.table + f.strings <= |f.bytes|
  }

  /** No property's length takes the walk back to it or to a place before it. */
  ghost predicate Calm(f: Blob)
    requires Fits(f)
  {
    forall off: nat :: !Backward(f.bytes, f.base, f.size, off)
  }

  /** No property's length wraps an offset around. */
  ghost predicate Unwrapped(f: Blob)
    requires Fits(f)
  {
    forall off: nat :: !Wraps(f.bytes, f.base, f.size, off)
  }

  /** The blob holds the tokens. */
  ghost predicate Has(f: Blob, toks: seq<Token>, offs: seq<int>) {
    Fits(f) && Shows(f.bytes, f.base, f.size, f.table, f.strings, toks, offs)
  }

  lemma HasFits(f: Blob, toks: seq<Token>, offs: seq<int>)
    requires Has(f, toks, offs)
    ensures Fits(f) && f.size < LIMIT
  {
  }

  lemma HasAt(f: Blob, toks: seq<Token>, offs: seq<int>, k: nat)
    requires Has(f, toks, offs) && k < |toks|
    ensures |offs| == |toks| && Laid(f.bytes, f.base, f.size, Start(toks, k), toks[k], offs[k]) &&
            Start(toks, k) < f.size
    ensures Start(toks, k) + Size(toks[k]) == Start(toks, k + 1) && Size(toks[k]) >= 4
    ensures toks[k].Prop? ==> StrAt(f.bytes[f.table..f.table + f.strings], offs[k], toks[k].name)
  {
    hide Holds, Start, Named, TokAt, StrAt, Align;
    StartAligned(toks, k);
    StartMonotone(toks, k, |toks|);
    StartNext(toks, k);
    HoldsAt(f.bytes, f.base, toks, offs, k);
    if toks[k].Prop? {
      NamedAt(f.bytes[f.table..f.table + f.strings], 0, toks, offs, k);
    }
  }

  // ----- from node to node

  /** Where the next node begins, or that the walk has come out above where it started, or to the end. */
  datatype Found = Found(k: nat, depth: int) | Up(k: nat, depth: int) | AtEnd(depth: int)

  /** The next node at or after token k. */
  function NextBegin(toks: seq<Token>, k: nat, depth: int): (r: Found)
    ensures r.Found? ==> k <= r.k < |toks| && toks[r.k].BeginNode?
    ensures r.Up? ==> k < r.k <= |toks| && toks[r.k - 1] == EndNode
    decreases |toks| - k
  {
    if k >= |toks| then AtEnd(depth)
    else
      match toks[k]
      case BeginNode(_) => Found(k, depth + 1)
      case EndNode => if depth - 1 < 0 then Up(k + 1, depth - 1) else NextBegin(toks, k + 1, depth - 1)
      case Prop(_, _) => NextBegin(toks, k + 1, depth)
      case End => AtEnd(depth)
  }

  /** Where fdt_next_node leads from token k - 1, with r the offset that it returns and d the depth. */
  ghost predicate Leads(toks: seq<Token>, k: nat, depth: int, r: int, d: int) {
    1 <= k <= |toks| &&
    if !toks[k - 1].BeginNode? then r < 0
    else
      match NextBegin(toks, k, depth)
      case Found(j, dj) => r == Start(toks, j) && d == dj
      case Up(j, dj) => r == Start(toks, j) && d == dj
      case AtEnd(dj) => r == -FDT_ERR_NOTFOUND && d == dj
  }

  /** Where it leads from the start of the blob. */
  ghost predicate LeadsIn(toks: seq<Token>, depth: int, r: int, d: int) {
    match NextBegin(toks, 0, depth)
    case Found(j, dj) => r == Start(toks, j) && d == dj
    case Up(j, dj) => r == Start(toks, j) && d == dj
    case AtEnd(dj) => r == -FDT_ERR_NOTFOUND && d == dj
  }

  /** The loop of fdt_next_node, at work at an offset or ended with a result. */
  datatype Loop = At(off: nat, d: int) | Ended(r: int, d: int)

  /** One turn of the loop. */
  function Turn(f: Blob, s: Loop): Loop
    requires Fits(f)
  {
    match s
    case Ended(_, _) => s
    case At(off, d) =>
      var (tag, next) := TagAt(f.bytes, f.base, f.size, off);
      if tag == FDT_BEGIN_NODE then Ended(off, d + 1)
      else if tag == FDT_END_NODE then if d - 1 < 0 then Ended(next, d - 1) else At(next, d - 1)
      else if tag == FDT_END then Ended(if next >= 0 then -FDT_ERR_NOTFOUND else next, d)
      else At(next, d)
  }

  function Turns(f: Blob, s: Loop, n: nat): Loop
    requires Fits(f)
  {
    if n == 0 then s else Turn(f, Turns(f, s, n - 1))
  }

  // What _fdt_check_node_offset answers
  function AfterNode(f: Blob, off: int): (next: int)
    requires Fits(f)
    ensures next <= f.size + 3
  {
    if off < 0 || off % 4 != 0 then -FDT_ERR_BADOFFSET
    else
      var (tag, next) := TagAt(f.bytes, f.base, f.size, off);
      if tag == FDT_BEGIN_NODE then next else -FDT_ERR_BADOFFSET
  }

  /** How the loop begins. */
  function Entry(f: Blob, offset: int, depth: int): (s: Loop)
    requires Fits(f)
    ensures s.At? ==> s.off <= f.size + 3 && s.d == depth
  {
    if offset < 0 then At(0, depth)
    else if AfterNode(f, offset) < 0 then Ended(AfterNode(f, offset), depth)
    else At(AfterNode(f, offset), depth)
  }

  lemma {:induction false} StaysEnded(f: Blob, s: Loop, m: nat, n: nat)
    requires Fits(f) && m <= n && Turns(f, s, m).Ended?
    ensures Turns(f, s, n) == Turns(f, s, m)
  {
    if m < n {
      StaysEnded(f, s, m, n - 1);
    }
  }

  // _fdt_check_node_offset
  method CheckNode(f: Blob, off: int, ghost t: Token, ghost o: int) returns (next: int)
    requires Fits(f) && off < 0x8000_0000
    ensures next == AfterNode(f, off) && (next >= 0 ==> 0 <= off && next <= f.size + 3)
    ensures off >= 0 && Laid(f.bytes, f.base, f.size, off, t, o) ==>
              if t.BeginNode? then next == off + Size(t) else next < 0
  {
    if off < 0 || off % 4 != 0 {
      return -FDT_ERR_BADOFFSET;
    }
    var tag;
    tag, next := NextTag(f.bytes, f.base, f.size, off, t, o);
    if tag != FDT_BEGIN_NODE {
      next := -FDT_ERR_BADOFFSET;
    }
  }

  /**
    fdt_next_node from the node at offset (or from the start when it is negative), keeping depth, watched for so many
    turns of its loop.  It ends on any blob in which no property leads back; one that leads to itself keeps it for ever,
    and when exactly it ends is FlatTreeEnds.EndsExactly.
    On a blob that holds toks, where offset is token k - 1, it fails if that is not a node and otherwise finds what
    NextBegin finds from token k.
  */
  method NextNode(f: Blob, offset: int, depth: int, turns: nat, ghost toks: seq<Token>, ghost offs: seq<int>,
                  ghost k: nat)
    returns (done: bool, r: int, d: int)
    requires Fits(f) && offset < 0x8000_0000
    requires Has(f, toks, offs) ==> k <= |toks| && toks != [] && toks[|toks| - 1] == End
    requires Has(f, toks, offs) && offset >= 0 ==> 1 <= k && offset == Start(toks, k - 1)
    requires Has(f, toks, offs) && offset < 0 ==> k == 0
    ensures var s := Turns(f, Entry(f, offset, depth), turns); (done <==> s.Ended?) && (done ==> s == Ended(r, d))
    ensures Calm(f) && turns >= f.size + 4 ==> done
    ensures offset < 0 && Spins(f.bytes, f.base, f.size, 0) ==> !done
    ensures done && r >= 0 ==> r <= f.size + 3
    ensures Has(f, toks, offs) && turns >= f.size + 4 ==> done
    ensures Has(f, toks, offs) && done ==> if k == 0 then LeadsIn(toks, depth, r, d) else Leads(toks, k, depth, r, d)
  {
    hide Shows, Laid, Start, Size, Spins, Backward, Wraps, Word, TagAt, AfterNode;
    var nextoffset := 0;
    d := depth;
    ghost var entry := Entry(f, offset, depth);
    ghost var has := Has(f, toks, offs);
    ghost var j: nat := k;
    if has && 1 <= k {
      HasAt(f, toks, offs, k - 1);
    }
    StartZero(toks);
    if offset >= 0 {
      nextoffset := CheckNode(f, offset, if has then toks[k - 1] else End, if has then offs[k - 1] else 0);
      if nextoffset < 0 {
        StaysEnded(f, entry, 0, turns);
        return true, nextoffset, d;
      }
    }
    for i := 0 to turns
      invariant 0 <= nextoffset <= f.size + 3 && Turns(f, entry, i) == At(nextoffset, d)
      invariant has || Calm(f) ==> i <= nextoffset
      invariant offset < 0 && Spins(f.bytes, f.base, f.size, 0) ==> nextoffset == 0
      invariant has ==> j < |toks| && nextoffset == Start(toks, j) && NextBegin(toks, j, d) == NextBegin(toks, k, depth)
    {
      if has {
        HasAt(f, toks, offs, j);
      }
      var off: nat := nextoffset;
      var tag;
      tag, nextoffset :=
        NextTag(f.bytes, f.base, f.size, off, if has then toks[j] else End, if has then offs[j] else 0);
      if offset < 0 {
        SpinsProp(f);
      }
      if Turns(f, entry, i + 1).Ended? {
        StaysEnded(f, entry, i + 1, turns);
      }
      if tag == FDT_BEGIN_NODE {
        return true, off, d + 1;
      } else if tag == FDT_END_NODE {
        d := d - 1;
        if d < 0 {
          return true, nextoffset, d;
        }
      } else if tag == FDT_END {
        return true, if nextoffset >= 0 then -FDT_ERR_NOTFOUND else nextoffset, d;
      }
      j := j + 1;
    }
    done, r := false, 0;
  }

  // What keeps the walk is a property.
  lemma SpinsProp(f: Blob)
    requires Fits(f)
    ensures Spins(f.bytes, f.base, f.size, 0) ==>
              f.size >= 8 && Word(f.bytes, f.base) == FDT_PROP && Backward(f.bytes, f.base, f.size, 0)
  {
  }

  /** A single property of length 0xFFFFFFF4: its end wraps around to its beginning. */
  const SPINNING := Blob([0, 0, 0, 3, 255, 255, 255, 244], 0, 8, 8, 0)

  /** However long it is watched, fdt_next_node is still at work on it. */
  method NeverEnds(turns: nat, depth: int) returns (done: bool)
    ensures Fits(SPINNING) && Spins(SPINNING.bytes, SPINNING.base, SPINNING.size, 0)
    ensures !done
  {
    var f, r, d := SPINNING, 0, depth;
    assert Word(f.bytes, 0) == FDT_PROP && Word(f.bytes, 4) == 0xFFFF_FFF4;
    assert !Has(f, [End], []);
    done, r, d := NextNode(f, -1, depth, turns, [End], [], 0);
  }

  lemma StartZero(toks: seq<Token>)
    ensures Start(toks, 0) == 0
  {
  }

  /** fdt_get_name */
  method GetName(f: Blob, nodeoffset: int, ghost t: Token, ghost o: int) returns (ok: bool, name: Bytes)
    requires Fits(f) && nodeoffset < 0x8000_0000
    ensures nodeoffset >= 0 && Laid(f.bytes, f.base, f.size, nodeoffset, t, o) ==> (ok <==> t.BeginNode?)
    ensures nodeoffset >= 0 && Laid(f.bytes, f.base, f.size, nodeoffset, t, o) && t.BeginNode? ==> name == t.name
  {
    hide Align, Word;
    var next := CheckNode(f, nodeoffset, t, o);
    var p := f.base + nodeoffset + 4;
    if next < 0 || p > |f.bytes| {
      return false, [];
    }
    var stop := Scan(f.bytes, p, |f.bytes|);
    if Laid(f.bytes, f.base, f.size, nodeoffset, t, o) && t.BeginNode? {
      ScanFinds(f.bytes, p, |f.bytes|, stop, t.name);
    }
    ok, name := true, f.bytes[p..stop];
  }

  // ----- properties of a node

  const FDT_ERR_INTERNAL := 13

  /** The first property of that name among the properties at token k and on. */
  function FirstProp(toks: seq<Token>, k: nat, name: Bytes): (r: int)
    ensures r == -1 || (k <= r < |toks| && toks[r].Prop?)
    decreases |toks| - k
  {
    if k >= |toks| || !toks[k].Prop? then -1
    else if toks[k].name == name then k
    else FirstProp(toks, k + 1, name)
  }

  // _fdt_string_eq: strlen and memcmp; a string that runs off the blob equals nothing
  method StringEq(f: Blob, stroffset: int, s: Bytes, ghost name: Bytes) returns (eq: bool)
    requires Fits(f)
    ensures StrAt(f.bytes[f.table..f.table + f.strings], stroffset, name) ==> (eq <==> name == s)
  {
    var p := f.table + stroffset;
    if p < 0 || p > |f.bytes| {
      return false;
    }
    var stop := Scan(f.bytes, p, |f.bytes|);
    if StrAt(f.bytes[f.table..f.table + f.strings], stroffset, name) {
      TableString(f, stroffset, name);
      ScanFinds(f.bytes, p, |f.bytes|, stop, name);
    }
    eq := stop < |f.bytes| && f.bytes[p..stop] == s;
  }

  lemma TableString(f: Blob, o: int, name: Bytes)
    requires Fits(f) && StrAt(f.bytes[f.table..f.table + f.strings], o, name)
    ensures var p := f.table + o;
            0 <= p && p + |name| < |f.bytes| && f.bytes[p..p + |name|] == name && f.bytes[p + |name|] == 0 && 0 !in name
  {
    var p, t := f.table + o, f.bytes[f.table..f.table + f.strings];
    assert f.bytes[p..p + |name|] == t[o..o + |name|];
  }

  // _nextprop
  method NextProp(f: Blob, start: int, ghost toks: seq<Token>, ghost offs: seq<int>, ghost k: nat) returns (r: int)
    requires Fits(f) && 0 <= start < 0x8000_0000
    requires Has(f, toks, offs) ==> k < |toks| && start == Start(toks, k)
    ensures r >= 0 ==> start <= r <= f.size
    ensures Has(f, toks, offs) && toks[k].Prop? ==> r == start
    ensures Has(f, toks, offs) && !toks[k].Prop? ==> r < 0
    ensures Has(f, toks, offs) && (toks[k].BeginNode? || toks[k].EndNode?) ==> r == -FDT_ERR_NOTFOUND
  {
    hide Shows, Laid, Start, Size;
    ghost var has := Has(f, toks, offs);
    if has {
      HasAt(f, toks, offs, k);
    }
    var off: nat := start;
    while true
      invariant off == start || !has
      invariant start <= off < 0x8000_0000
      decreases f.size + 4 - off
    {
      var tag, next := NextTag(f.bytes, f.base, f.size, off, if has then toks[k] else End, if has then offs[k] else 0);
      if tag == FDT_END {
        return if next >= 0 then -FDT_ERR_BADSTRUCTURE else next;
      }
      if tag == FDT_PROP {
        return off;
      }
      off := next;
      if tag != FDT_NOP {
        return -FDT_ERR_NOTFOUND;
      }
    }
  }

  /** An answer, or reading past the end of the blob, or no answer yet. */
  datatype Lookup = Done(r: int, val: Bytes) | Past | Running

  /**
    fdt_get_property_namelen and fdt_getprop: the value of the first property of that name, watched for so many turns of
    the loop over the node's properties.  On any blob in which no length wraps an offset around, it ends without
    leaving the blob.  On a blob that holds toks, where nodeoffset is node k, the answer is what the tokens say.
  */
  method GetProp(f: Blob, nodeoffset: int, name: Bytes, turns: nat, ghost toks: seq<Token>, ghost offs: seq<int>,
                 ghost k: nat)
    returns (out: Lookup)
    requires Fits(f) && nodeoffset < 0x8000_0000 && 0 !in name
    requires Has(f, toks, offs) ==>
               toks != [] && toks[|toks| - 1] == End && k < |toks| && nodeoffset == Start(toks, k) && toks[k].BeginNode?
    ensures Calm(f) && turns >= f.size + 4 ==> !out.Running?
    ensures Unwrapped(f) ==> !out.Past?
    ensures Has(f, toks, offs) && turns >= f.size + 4 ==> out.Done?
    ensures Has(f, toks, offs) && out.Done? ==>
              var i := FirstProp(toks, k + 1, name);
              (i >= 0 ==> out.r >= 0 && out.val == toks[i].val) &&
              (i < 0 ==> out.r < 0 && (!HitsEnd(toks, k + 1) ==> out.r == -FDT_ERR_NOTFOUND))
  {
    hide Shows, Laid, Start, Size, Word, Backward, Spins, TagAt, AfterNode;
    ghost var has := Has(f, toks, offs);
    if has {
      HasAt(f, toks, offs, k);
    }
    var r := CheckNode(f, nodeoffset, if has then toks[k] else End, if has then offs[k] else 0);
    if r < 0 {
      return Done(r, []);
    }
    ghost var j: nat := k + 1;
    r := NextProp(f, r, toks, offs, j);
    for i := 0 to turns
      invariant r <= f.size
      invariant (has || Calm(f)) && r >= 0 ==> i <= r
      invariant has ==>
                  j < |toks| && FirstProp(toks, j, name) == FirstProp(toks, k + 1, name) &&
                  HitsEnd(toks, j) == HitsEnd(toks, k + 1)
      invariant has && toks[j].Prop? ==> r == Start(toks, j)
      invariant has && !toks[j].Prop? ==> r < 0
      invariant has && (toks[j].BeginNode? || toks[j].EndNode?) ==> r == -FDT_ERR_NOTFOUND
    {
      if r < 0 {
        return Done(r, []);
      }
      if has {
        HasAt(f, toks, offs, j);
      }
      var tag, next := NextTag(f.bytes, f.base, f.size, r, if has then toks[j] else End, if has then offs[j] else 0);
      if r % 4 != 0 || tag != FDT_PROP {
        if has {
          Aligned(f, toks, offs, j);
        }
        return Done(-FDT_ERR_INTERNAL, []);
      }
      var at, len := f.base + r, Word(f.bytes, f.base + r + 4);
      if has {
        PropRead(f, toks, offs, j);
      }
      if at + 12 > |f.bytes| {
        return Past;
      }
      var eq := StringEq(f, Signed(Word(f.bytes, at + 8)), name, if has then toks[j].name else []);
      if eq {
        return if at + 12 + len > |f.bytes| then Past else Done(r, f.bytes[at + 12..at + 12 + len]);
      }
      j := j + 1;
      r := NextProp(f, next, toks, offs, j);
    }
    out := if r < 0 then Done(r, []) else Running;
  }

  lemma Aligned(f: Blob, toks: seq<Token>, offs: seq<int>, j: nat)
    requires Has(f, toks, offs) && j < |toks|
    ensures Start(toks, j) % 4 == 0
  {
    StartAligned(toks, j);
  }

  /** What the fields of a property say. */
  lemma PropRead(f: Blob, toks: seq<Token>, offs: seq<int>, j: nat)
    requires Has(f, toks, offs) && j < |toks| == |offs| && toks[j].Prop?
    ensures var at := f.base + Start(toks, j);
            at + 12 + |toks[j].val| <= |f.bytes| && Word(f.bytes, at + 4) == |toks[j].val| &&
            Signed(Word(f.bytes, at + 8)) == offs[j] && f.bytes[at + 12..at + 12 + |toks[j].val|] == toks[j].val
  {
    hide Shows, Start, Word, Laid, Size;
    HasAt(f, toks, offs, j);
    assert 0 <= offs[j] < LIMIT;
    hide Has, StrAt;
    LaidProp(f.bytes, f.base, f.size, Start(toks, j), toks[j], offs[j]);
  }

  lemma LaidProp(b: Bytes, base: nat, size: nat, off: nat, t: Token, o: int)
    requires base + size <= |b| && t.Prop? && Laid(b, base, size, off, t, o)
    ensures var at := base + off;
            at + 12 + |t.val| <= |b| && Word(b, at + 4) == |t.val| && Word(b, at + 8) == Unsigned(o) &&
            b[at + 12..at + 12 + |t.val|] == t.val
  {
    hide Word, Align, Unsigned;
  }

  /** The node's properties run into the terminator: the tokens are not those of a tree. */
  predicate HitsEnd(toks: seq<Token>, k: nat)
    decreases |toks| - k
  {
    k < |toks| && (toks[k] == End || (toks[k].Prop? && HitsEnd(toks, k + 1)))
  }

  // ----- whole trees

  /** The value of a property, if there is one. */
  datatype Value = Absent | Present(bytes: Bytes)

  /** What is read at a node. */
  datatype Sight = Sight(name: Bytes, depth: int, value: Value)

  /** A device tree: properties come before subnodes. */
  datatype Node = Node(name: Bytes, props: seq<(Bytes, Bytes)>, kids: seq<Node>)

  function PropTokens(props: seq<(Bytes, Bytes)>): (r: seq<Token>)
    ensures |r| == |props|
  {
    if props == [] then [] else [Prop(props[0].0, props[0].1)] + PropTokens(props[1..])
  }

  /** The calls that write a tree, as tokens. */
  function Written(n: Node): seq<Token> {
    [BeginNode(n.name)] + (PropTokens(n.props) + (WrittenAll(n.kids) + [EndNode]))
  }

  function WrittenAll(kids: seq<Node>): seq<Token> {
    if kids == [] then [] else Written(kids[0]) + WrittenAll(kids[1..])
  }

  /** The first property of that name, or -1. */
  function PropOf(props: seq<(Bytes, Bytes)>, name: Bytes): (i: int)
    ensures -1 <= i < |props|
  {
    if props == [] then -1
    else if props[0].0 == name then 0
    else
      var i := PropOf(props[1..], name);
      if i < 0 then -1 else i + 1
  }

  function ValueOf(n: Node, want: Bytes): Value {
    var i := PropOf(n.props, want);
    if i < 0 then Absent else Present(n.props[i].1)
  }

  /** The nodes of a tree in preorder: their names, their depths, and what they have under the name `want`. */
  function Preorder(n: Node, depth: int, want: Bytes): seq<Sight> {
    [Sight(n.name, depth, ValueOf(n, want))] + PreorderAll(n.kids, depth + 1, want)
  }

  function PreorderAll(kids: seq<Node>, depth: int, want: Bytes): seq<Sight> {
    if kids == [] then [] else Preorder(kids[0], depth, want) + PreorderAll(kids[1..], depth, want)
  }

  /** What fdt_getprop finds at the node of token k. */
  function ValueAt(toks: seq<Token>, k: nat, want: Bytes): Value {
    var i := FirstProp(toks, k + 1, want);
    if i < 0 then Absent else Present(toks[i].val)
  }

  /** What repeated calls of fdt_next_node, fdt_get_name and fdt_getprop see from token k on. */
  function Visited(toks: seq<Token>, k: nat, depth: int, want: Bytes): seq<Sight>
    decreases |toks| - k
  {
    match NextBegin(toks, k, depth)
    case Found(j, d) => [Sight(toks[j].name, d, ValueAt(toks, j, want))] + Visited(toks, j + 1, d, want)
    case Up(j, d) =>
      if j < |toks| && toks[j].BeginNode?
      then [Sight(toks[j].name, d, ValueAt(toks, j, want))] + Visited(toks, j + 1, d, want) else []
    case AtEnd(_) => []
  }

  // No node's properties run into the terminator.
  ghost predicate Solid(toks: seq<Token>) {
    forall k | 0 <= k < |toks| && toks[k].BeginNode? :: !HitsEnd(toks, k + 1)
  }

  /** What is still to be seen when the walk stands at token k - 1. */
  function Rest(toks: seq<Token>, k: nat, depth: int, want: Bytes): seq<Sight>
    requires 1 <= k <= |toks|
  {
    if toks[k - 1].BeginNode? then Visited(toks, k, depth, want) else []
  }

  /** What the walk sees at token k. */
  function Seen(toks: seq<Token>, k: nat, depth: int, want: Bytes): seq<Sight>
    requires k < |toks|
  {
    if toks[k].BeginNode? then [Sight(toks[k].name, depth, ValueAt(toks, k, want))] else []
  }

  // One turn of the walk.
  lemma RestNext(toks: seq<Token>, k: nat, depth: int, want: Bytes)
    requires 1 <= k <= |toks| && toks[|toks| - 1] == End && toks[k - 1].BeginNode?
    ensures var n := NextBegin(toks, k, depth);
            if n.AtEnd? then Rest(toks, k, depth, want) == []
            else
              k <= n.k < |toks| &&
              Rest(toks, k, depth, want) == Seen(toks, n.k, n.depth, want) + Rest(toks, n.k + 1, n.depth, want)
  {
    hide NextBegin, ValueAt;
  }

  // fdt_get_name and fdt_getprop at token k, which need not be a node
  method ReadOne(f: Blob, offset: int, depth: int, want: Bytes, ghost toks: seq<Token>, ghost offs: seq<int>,
                 ghost k: nat)
    returns (one: seq<Sight>)
    requires Has(f, toks, offs) && 0 !in want && Solid(toks) && toks != [] && toks[|toks| - 1] == End
    requires k < |toks| && offset == Start(toks, k)
    ensures one == Seen(toks, k, depth, want)
  {
    hide Shows, Laid, Start, HitsEnd, FirstProp, Size;
    HasAt(f, toks, offs, k);
    var ok, name := GetName(f, offset, toks[k], offs[k]);
    if !ok {
      return [];
    }
    var out := GetProp(f, offset, want, f.size + 4, toks, offs, k);
    one := [Sight(name, depth, if out.r >= 0 then Present(out.val) else Absent)];
  }

  // The token it leads to; and nothing is left to see when it fails.
  lemma LeadsTo(toks: seq<Token>, k: nat, depth: int, r: int, d: int, want: Bytes) returns (j: nat)
    requires Leads(toks, k, depth, r, d) && toks[|toks| - 1] == End
    ensures r < 0 ==> Rest(toks, k, depth, want) == []
    ensures r >= 0 ==> k <= j < |toks| && r == Start(toks, j)
    ensures r >= 0 ==> Rest(toks, k, depth, want) == Seen(toks, j, d, want) + Rest(toks, j + 1, d, want)
  {
    hide Start, Visited, NextBegin, Seen;
    j := 0;
    if toks[k - 1].BeginNode? {
      RestNext(toks, k, depth, want);
      if r >= 0 {
        j := NextBegin(toks, k, depth).k;
      }
    }
  }

  // what is left to see, after what has been seen
  ghost predicate Walked(toks: seq<Token>, k: nat, depth: int, want: Bytes, seen: seq<Sight>) {
    1 <= k <= |toks| && seen + Rest(toks, k, depth, want) == Visited(toks, 1, 0, want)
  }

  lemma WalkedOn(toks: seq<Token>, k: nat, depth: int, j: nat, d: int, want: Bytes, seen: seq<Sight>, one: seq<Sight>)
    requires Walked(toks, k, depth, want, seen) && j < |toks| && one == Seen(toks, j, d, want)
    requires Rest(toks, k, depth, want) == Seen(toks, j, d, want) + Rest(toks, j + 1, d, want)
    ensures Walked(toks, j + 1, d, want, seen + one)
  {
    hide Visited, Rest, Seen;
    Regroup(seen, one, Rest(toks, j + 1, d, want));
  }

  lemma WalkedAll(toks: seq<Token>, k: nat, depth: int, want: Bytes, seen: seq<Sight>)
    requires Walked(toks, k, depth, want, seen) && Rest(toks, k, depth, want) == []
    ensures seen == Visited(toks, 1, 0, want)
  {
    hide Visited, Rest;
  }

  /**
    The walk over all nodes below the first one: their names, their depths, and what they have under the name `want`.
  */
  method ReadBelow(f: Blob, want: Bytes, ghost toks: seq<Token>, ghost offs: seq<int>) returns (seen: seq<Sight>)
    requires Has(f, toks, offs) && 0 !in want && Solid(toks)
    requires toks != [] && toks[0].BeginNode? && toks[|toks| - 1] == End
    ensures seen == Visited(toks, 1, 0, want)
  {
    hide Has, Fits, Start, Visited, Rest, Solid, Seen, Walked, Leads;
    HasFits(f, toks, offs);
    StartZero(toks);
    WalkedNone(toks, want);
    seen := [];
    var offset, depth := 0, 0;
    ghost var k: nat := 1;
    while true
      invariant 1 <= k <= |toks| && offset == Start(toks, k - 1) && offset <= f.size + 3
      invariant Walked(toks, k, depth, want, seen)
      decreases |toks| - k
    {
      ghost var d0 := depth;
      var done;
      done, offset, depth := NextNode(f, offset, depth, f.size + 4, toks, offs, k);
      ghost var j := LeadsTo(toks, k, d0, offset, depth, want);
      if offset < 0 {
        WalkedAll(toks, k, d0, want, seen);
        break;
      }
      var one := ReadOne(f, offset, depth, want, toks, offs, j);
      WalkedOn(toks, k, d0, j, depth, want, seen, one);
      seen := seen + one;
      k := j + 1;
    }
  }

  lemma Regroup<T>(a: seq<T>, b: seq<T>, c: seq<T>)
    ensures a + (b + c) == (a + b) + c
  {
  }

  lemma WalkedNone(toks: seq<Token>, want: Bytes)
    requires toks != [] && toks[0].BeginNode?
    ensures Walked(toks, 1, 0, want, [])
  {
    hide Visited;
  }

  /** part stands in toks at k. */
  predicate Stands(toks: seq<Token>, k: nat, part: seq<Token>) {
    k + |part| <= |toks| && toks[k..k + |part|] == part
  }

  lemma StandsSplit(toks: seq<Token>, k: nat, a: seq<Token>, b: seq<Token>)
    requires Stands(toks, k, a + b)
    ensures Stands(toks, k, a) && Stands(toks, k + |a|, b)
  {
    var all := toks[k..k + |a + b|];
    assert toks[k..k + |a|] == all[..|a|];
    assert toks[k + |a|..k + |a| + |b|] == all[|a|..];
  }

  // Properties are passed over.
  lemma {:induction false} VisitProps(toks: seq<Token>, k: nat, props: seq<(Bytes, Bytes)>, depth: int)
    requires Stands(toks, k, PropTokens(props))
    ensures NextBegin(toks, k, depth) == NextBegin(toks, k + |props|, depth)
    decreases |props|
  {
    if props != [] {
      StandsSplit(toks, k, [Prop(props[0].0, props[0].1)], PropTokens(props[1..]));
      assert toks[k] == toks[k..k + 1][0];
      VisitProps(toks, k + 1, props[1..], depth);
    }
  }

  // Where the parts of a written node stand.
  lemma NodeParts(toks: seq<Token>, k: nat, n: Node)
    requires Stands(toks, k, Written(n))
    ensures var a := k + 1 + |n.props|;
            var e := a + |WrittenAll(n.kids)|;
            e + 1 == k + |Written(n)| <= |toks| && toks[k] == BeginNode(n.name) &&
            Stands(toks, k + 1, PropTokens(n.props)) &&
            Stands(toks, a, WrittenAll(n.kids)) && toks[e] == EndNode
  {
    var ps, ks := PropTokens(n.props), WrittenAll(n.kids);
    var rest := ps + (ks + [EndNode]);
    assert Written(n) == [BeginNode(n.name)] + rest;
    hide Written, WrittenAll, PropTokens, Stands;
    StandsSplit(toks, k, [BeginNode(n.name)], rest);
    StandsSplit(toks, k + 1, ps, ks + [EndNode]);
    StandsSplit(toks, k + 1 + |ps|, ks, [EndNode]);
    StandsOne(toks, k, BeginNode(n.name));
    StandsOne(toks, k + 1 + |ps| + |ks|, EndNode);
  }

  lemma StandsFirst(part: seq<Token>, rest: seq<Token>)
    ensures Stands(part + rest, 0, part)
  {
  }

  lemma StandsOne(toks: seq<Token>, k: nat, t: Token)
    requires Stands(toks, k, [t])
    ensures k < |toks| && toks[k] == t
  {
    assert toks[k] == toks[k..k + 1][0];
  }

  lemma SameVisit(toks: seq<Token>, j: nat, dj: int, k: nat, dk: int, want: Bytes)
    requires NextBegin(toks, j, dj) == NextBegin(toks, k, dk)
    ensures Visited(toks, j, dj, want) == Visited(toks, k, dk, want)
  {
    hide NextBegin, ValueAt;
  }

  lemma VisitBegin(toks: seq<Token>, k: nat, depth: int, want: Bytes)
    requires k < |toks| && toks[k].BeginNode?
    ensures Visited(toks, k, depth, want) ==
              [Sight(toks[k].name, depth + 1, ValueAt(toks, k, want))] + Visited(toks, k + 1, depth + 1, want)
  {
    hide ValueAt;
    assert NextBegin(toks, k, depth) == Found(k, depth + 1);
    hide NextBegin;
  }

  lemma {:induction false} VisitNode(toks: seq<Token>, k: nat, n: Node, depth: int, want: Bytes)
    requires depth >= 0 && Stands(toks, k, Written(n))
    ensures Visited(toks, k, depth, want) == Preorder(n, depth + 1, want) + Visited(toks, k + |Written(n)|, depth, want)
    decreases n
  {
    hide Written, WrittenAll, PropTokens, PreorderAll, Stands, ValueAt, ValueOf, Visited;
    NodeParts(toks, k, n);
    NodeProps(toks, k, n, want);
    var a := k + 1 + |n.props|;
    var e := a + |WrittenAll(n.kids)|;
    VisitBegin(toks, k, depth, want);
    VisitProps(toks, k + 1, n.props, depth + 1);
    SameVisit(toks, k + 1, depth + 1, a, depth + 1, want);
    VisitAll(toks, a, n.kids, depth + 1, want);
    SameVisit(toks, e, depth + 1, e + 1, depth, want);
  }

  lemma {:induction false} VisitAll(toks: seq<Token>, k: nat, kids: seq<Node>, depth: int, want: Bytes)
    requires depth >= 0 && Stands(toks, k, WrittenAll(kids))
    ensures Visited(toks, k, depth, want) ==
              PreorderAll(kids, depth + 1, want) + Visited(toks, k + |WrittenAll(kids)|, depth, want)
    decreases kids
  {
    hide Written, Visited, Preorder, Stands;
    if kids != [] {
      StandsSplit(toks, k, Written(kids[0]), WrittenAll(kids[1..]));
      VisitNode(toks, k, kids[0], depth, want);
      VisitAll(toks, k + |Written(kids[0])|, kids[1..], depth, want);
    }
  }

  // The end of the root, and the terminator.
  lemma VisitEnd(toks: seq<Token>, e: nat, want: Bytes)
    requires e + 1 < |toks| && toks[e] == EndNode && toks[e + 1] == End
    ensures Visited(toks, e, 0, want) == []
  {
    assert NextBegin(toks, e, 0) == Up(e + 1, -1);
    hide NextBegin;
  }

  /**
    Walking on from the root of a written tree visits the nodes below it in preorder, at their depths and with their
    properties, and then stops.
  */
  lemma TreeVisited(root: Node, want: Bytes)
    ensures Visited(Written(root) + [End], 1, 0, want) == PreorderAll(root.kids, 1, want)
  {
    hide Written, WrittenAll, PropTokens, Stands, Visited, NextBegin, PreorderAll;
    var toks := Written(root) + [End];
    StandsFirst(Written(root), [End]);
    NodeParts(toks, 0, root);
    var a := 1 + |root.props|;
    VisitProps(toks, 1, root.props, 0);
    SameVisit(toks, 1, 0, a, 0, want);
    VisitAll(toks, a, root.kids, 0, want);
    VisitEnd(toks, a + |WrittenAll(root.kids)|, want);
  }

  lemma {:induction false} PropFound(toks: seq<Token>, k: nat, props: seq<(Bytes, Bytes)>, name: Bytes)
    requires Stands(toks, k, PropTokens(props)) && k + |props| < |toks| && !toks[k + |props|].Prop? &&
             toks[k + |props|] != End
    ensures FirstProp(toks, k, name) == (var i := PropOf(props, name); if i < 0 then -1 else k + i)
    ensures !HitsEnd(toks, k)
    ensures PropOf(props, name) >= 0 ==> toks[k + PropOf(props, name)] == Prop(name, props[PropOf(props, name)].1)
    decreases |props|
  {
    if props != [] {
      StandsSplit(toks, k, [Prop(props[0].0, props[0].1)], PropTokens(props[1..]));
      assert toks[k] == toks[k..k + 1][0];
      PropFound(toks, k + 1, props[1..], name);
    }
  }

  /** Looking a property up in a written node finds the node's first property of that name, or none. */
  lemma NodeProps(toks: seq<Token>, k: nat, n: Node, name: Bytes)
    requires Stands(toks, k, Written(n))
    ensures !HitsEnd(toks, k + 1) && ValueAt(toks, k, name) == ValueOf(n, name)
  {
    NodeParts(toks, k, n);
    var a := k + 1 + |n.props|;
    if n.kids != [] {
      KidStarts(toks, a, n.kids);
    }
    hide Written, WrittenAll;
    PropFound(toks, k + 1, n.props, name);
  }

  lemma KidStarts(toks: seq<Token>, a: nat, kids: seq<Node>)
    requires kids != [] && Stands(toks, a, WrittenAll(kids))
    ensures a < |toks| && toks[a] == BeginNode(kids[0].name)
  {
    StandsSplit(toks, a, Written(kids[0]), WrittenAll(kids[1..]));
    hide WrittenAll;
    NodeParts(toks, a, kids[0]);
  }
}
