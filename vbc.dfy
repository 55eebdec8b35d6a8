// The VBC tree recorder (src/combina_bnb_solver/monitors/VbcMonitor.cpp):
// compression inference from the file name, the per-state colour and
// message tables, node numbering and the set of nodes not yet given a
// final category.  The file sink is modelled as the sequence of records
// written; clock strings, number formatting and the compression filters
// are not modelled.

module VbcMonitoring {
  import opened Common

  /** `NodeState`, in declaration order. */
  datatype NodeState = Active | Selected | Fathomed | Infeasible | Solved | Integer

  function StateIndex(ns: NodeState): (i: nat)
    ensures i < 6
  {
    match ns
    case Active => 0
    case Selected => 1
    case Fathomed => 2
    case Infeasible => 3
    case Solved => 4
    case Integer => 5
  }

  /** `color_codes`, indexed by the state's underlying value. */
  const ColorCodes: seq<nat> := [4, 8, 6, 13, 9, 2]

  /** `status_messages`; `None` stands for `nullptr`. */
  const StatusMessages: seq<Option<string>> := [None, None,
    Some("fathomed by upper bound"), Some("no feasible children"),
    Some("branching performed"), Some("solution found")]

  /** `to_color_code`. */
  function ToColorCode(ns: NodeState): (c: nat)
    ensures ns == Active ==> c == 4
    ensures ns == Selected ==> c == 8
    ensures ns == Fathomed ==> c == 6
    ensures ns == Infeasible ==> c == 13
    ensures ns == Solved ==> c == 9
    ensures ns == Integer ==> c == 2
  {
    ColorCodes[StateIndex(ns)]
  }

  /** `to_status_message`. */
  function ToStatusMessage(ns: NodeState): (m: Option<string>)
    ensures m.None? <==> ns == Active || ns == Selected
  {
    StatusMessages[StateIndex(ns)]
  }

  /** `NODE_STATE_TERMINAL(x)`: `x >= NODE_FATHOMED`. */
  predicate Terminal(ns: NodeState)
  {
    StateIndex(ns) >= StateIndex(Fathomed)
  }

  /** The terminal states are exactly those with a status message, and
      different states are drawn in different colours. */
  lemma StateTables(a: NodeState, b: NodeState)
    ensures Terminal(a) <==> ToStatusMessage(a).Some?
    ensures a != b ==> ToColorCode(a) != ToColorCode(b)
  {
  }

  datatype Compression = NoCompression | Bzip2 | Gzip

  /** `compression_table`, in the iteration order of its `std::map`. */
  const CompressionTable: seq<(string, Compression)> := [(".bz2", Bzip2), (".gz", Gzip)]

  predicate HasSuffix(path: string, suffix: string)
  {
    |path| >= |suffix| && path[|path| - |suffix|..] == suffix
  }

  /** `std::equal(path.cbegin() + (path.size() - n), path.cend(), suffix.cbegin())`. */
  method EndsWith(path: string, suffix: string) returns (b: bool)
    requires |path| >= |suffix|
    ensures b <==> HasSuffix(path, suffix)
  {
    var off := |path| - |suffix|;
    var k := 0;
    while k < |suffix|
      invariant 0 <= k <= |suffix|
      invariant forall j :: 0 <= j < k ==> path[off + j] == suffix[j]
    {
      if path[off + k] != suffix[k] {
        assert path[off..][k] != suffix[k];
        return false;
      }
      k := k + 1;
    }
    assert path[off..] == suffix;
    b := true;
  }

  /** `infer_compression_method(path)`: the first table suffix that ends
      the path, else no compression. */
  method InferCompressionMethod(path: string) returns (c: Compression)
    ensures c == Bzip2 <==> HasSuffix(path, ".bz2")
    ensures c == Gzip <==> !HasSuffix(path, ".bz2") && HasSuffix(path, ".gz")
    ensures c == NoCompression <==> !HasSuffix(path, ".bz2") && !HasSuffix(path, ".gz")
  {
    var i := 0;
    while i < |CompressionTable|
      invariant 0 <= i <= |CompressionTable|
      invariant forall j :: 0 <= j < i ==> !HasSuffix(path, CompressionTable[j].0)
    {
      assert CompressionTable[0].0 == ".bz2" && CompressionTable[1].0 == ".gz";
      var entry := CompressionTable[i];
      if |path| >= |entry.0| {
        var m := EndsWith(path, entry.0);
        if m {
          return entry.1;
        }
      }
      i := i + 1;
    }
    assert CompressionTable[0].0 == ".bz2" && CompressionTable[1].0 == ".gz";
    return NoCompression;
  }

  /** A path shorter than a suffix, such as `".gz"` for `".bz2"`, never
      ends with it; the two suffixes cannot both match. */
  lemma SuffixesExclusive(path: string)
    ensures !(HasSuffix(path, ".bz2") && HasSuffix(path, ".gz"))
    ensures |path| < 3 ==> !HasSuffix(path, ".bz2") && !HasSuffix(path, ".gz")
  {
    assert HasSuffix(path, ".bz2") ==> path[|path| - 1] == '2';
    assert HasSuffix(path, ".gz") ==> path[|path| - 1] == 'z';
  }

  /** What the monitor reads of a search node. */
  datatype VbcNode = VbcNode(seqNum: nat, parentSeqNum: Option<nat>, lb: real, depth: nat, bActive: nat)

  /** `get_seq_num() + 2`: numbers 0 and 1 are not node numbers; 1 is the
      virtual root. */
  function NodeNumber(n: VbcNode): (r: nat)
    ensures r >= 2
  {
    n.seqNum + 2
  }

  /** The parent's number, or the virtual root 1 for a node without one. */
  function ParentNumber(n: VbcNode): (r: nat)
    ensures r == 1 <==> n.parentSeqNum.None?
    ensures n.parentSeqNum.Some? ==> r == n.parentSeqNum.value + 2
  {
    if n.parentSeqNum.Some? then n.parentSeqNum.value + 2 else 1
  }

  /** Distinct sequence numbers give distinct VBC numbers, none of them the
      virtual root. */
  lemma NumberingInjective(a: VbcNode, b: VbcNode)
    ensures NodeNumber(a) == NodeNumber(b) <==> a.seqNum == b.seqNum
    ensures NodeNumber(a) != 1
  {
  }

  /** The records the monitor writes, one per VBC line or line group. */
  datatype VbcRecord =
    | Header(timing: bool)
    | VirtualRoot(timing: bool)
    | NodeCreated(parentNum: nat, nodeNum: nat, seqNum: nat, lb: real, depth: nat, bActive: nat)
    | ColorChange(nodeNum: nat, color: nat)
    | Annotation(nodeNum: nat, message: string)
    | UpperBound(lb: real)
    | Category(nodeNum: nat, color: nat)

  /** The loop of `on_stop_search` over `cat_`: one `ACTIVE` category
      record per entry, in unspecified order. */
  method CategorizeActive(cat: set<nat>) returns (out: seq<VbcRecord>)
    ensures |out| == |cat|
    ensures forall r :: r in out ==> r.Category? && r.color == 4 && r.nodeNum in cat
    ensures forall n :: n in cat ==> Category(n, 4) in out
  {
    var rest := cat;
    ghost var emitted: set<nat> := {};
    out := [];
    while rest != {}
      invariant rest + emitted == cat && rest !! emitted
      invariant |out| == |emitted|
      invariant forall r :: r in out ==> r.Category? && r.color == 4 && r.nodeNum in emitted
      invariant forall n :: n in emitted ==> Category(n, 4) in out
      decreases |rest|
    {
      var n :| n in rest;
      out := out + [Category(n, ToColorCode(Active))];
      emitted := emitted + {n};
      rest := rest - {n};
    }
  }

  class VbcMonitor {
    var timing: bool
    var path: string
    var compr: Compression
    /** Whether the stream's buffer has an open file. */
    var isOpen: bool
    /** The stream state that `if(out_)` checks. */
    var good: bool
    /** The uncategorised node numbers, `cat_`. */
    var cat: set<nat>
    var records: seq<VbcRecord>

    ghost predicate Valid()
      reads this
    {
      forall n :: n in cat ==> n >= 2
    }

    constructor (path: string, timing: bool)
      ensures Valid()
      ensures this.path == path && this.timing == timing
      ensures !isOpen && good && cat == {} && records == []
    {
      this.path := path;
      this.timing := timing;
      compr := NoCompression;
      isOpen := false;
      good := true;
      cat := {};
      records := [];
    }

    /** A stream write: appended when the file is open, otherwise it sets
        the stream's failure state. */
    method Write(rs: seq<VbcRecord>)
      modifies this`records, this`good
      ensures good == (old(good) && isOpen)
      ensures records == if old(good) && isOpen then old(records) + rs else old(records)
    {
      if good {
        if isOpen {
          records := records + rs;
        } else {
          good := false;
        }
      }
    }

    /** `on_start_search()`; `canOpen` is whether the file system let the
        file be opened. */
    method OnStartSearch(canOpen: bool)
      requires Valid()
      modifies this
      ensures Valid()
      ensures compr == (if HasSuffix(path, ".bz2") then Bzip2
        else if HasSuffix(path, ".gz") then Gzip else NoCompression)
      ensures isOpen == (compr == NoCompression && canOpen) && good == isOpen
      ensures records == old(records) + (if isOpen then [Header(timing), VirtualRoot(timing)] else [])
      ensures cat == {}
      ensures timing == old(timing) && path == old(path)
    {
      compr := InferCompressionMethod(path);
      isOpen := false;
      good := true;
      if compr == NoCompression && canOpen {
        isOpen := true;
      }
      Write([Header(timing), VirtualRoot(timing)]);
      cat := {};
    }

    /** `on_create(node)`: write the node and its edge and, without timing,
        mark it uncategorised. */
    method OnCreate(node: VbcNode)
      requires Valid()
      modifies this`records, this`good, this`cat
      ensures Valid()
      ensures var rec := NodeCreated(ParentNumber(node), NodeNumber(node), node.seqNum,
          node.lb, node.depth, node.bActive);
        records == if old(good) && isOpen then old(records) + [rec] else old(records)
      ensures cat == if old(good) && !timing then old(cat) + {NodeNumber(node)} else old(cat)
      ensures good == (old(good) && isOpen)
    {
      if good {
        var nodeNum := NodeNumber(node);
        var parentNum := ParentNumber(node);
        Write([NodeCreated(parentNum, nodeNum, node.seqNum, node.lb, node.depth, node.bActive)]);
        if !timing {
          cat := cat + {nodeNum};
        }
      }
    }

    /** `on_change(node, state)`: with timing, a colour change, the status
        message and, for `NODE_INTEGER`, the new upper bound; without
        timing, a category line for terminal states, which leave `cat_`. */
    method OnChange(node: VbcNode, state: NodeState)
      requires Valid()
      modifies this`records, this`good, this`cat
      ensures Valid()
      ensures var num := NodeNumber(node);
        var color := ToColorCode(state);
        var msg := ToStatusMessage(state);
        var rs := if timing then
            [ColorChange(num, color)] + (if msg.Some? then [Annotation(num, msg.value)] else []) +
            (if state == Integer then [UpperBound(node.lb)] else [])
          else if Terminal(state) then [Category(num, color)] else [];
        records == (if old(good) && isOpen then old(records) + rs else old(records)) &&
        good == (old(good) && (rs == [] || isOpen))
      ensures cat == if old(good) && !timing && Terminal(state) then old(cat) - {NodeNumber(node)} else old(cat)
    {
      if good {
        var num := NodeNumber(node);
        var color := ToColorCode(state);
        var msg := ToStatusMessage(state);
        if timing {
          var rs := [ColorChange(num, color)] + (if msg.Some? then [Annotation(num, msg.value)] else []) +
            (if state == Integer then [UpperBound(node.lb)] else []);
          Write(rs);
        } else if Terminal(state) {
          Write([Category(num, color)]);
          cat := cat - {num};
        }
      }
    }

    /** `on_select(node)`. */
    method OnSelect(node: VbcNode)
      requires Valid()
      modifies this`records, this`good, this`cat
      ensures Valid()
      ensures records == if old(good) && isOpen && timing
        then old(records) + [ColorChange(NodeNumber(node), 8)] else old(records)
      ensures cat == old(cat)
    {
      OnChange(node, Selected);
    }

    /** `on_stop_search()`: without timing, every node still uncategorised
        gets one `ACTIVE` category line, in unspecified order; then `cat_`
        is cleared and the file closed. */
    method OnStopSearch()
      requires Valid()
      modifies this
      ensures Valid() && cat == {} && !isOpen
      ensures good == old(good)
      ensures old(good) && old(isOpen) && !timing ==>
        |records| == |old(records)| + |old(cat)| && records[..|old(records)|] == old(records) &&
        (forall r :: r in records[|old(records)|..] ==> r.Category? && r.color == 4 && r.nodeNum in old(cat)) &&
        (forall n :: n in old(cat) ==> Category(n, 4) in records[|old(records)|..])
      ensures !(old(good) && old(isOpen) && !timing) ==> records == old(records)
      ensures timing == old(timing) && path == old(path)
    {
      if good && isOpen && !timing && cat != {} {
        var out := CategorizeActive(cat);
        records := records + out;
      }
      cat := {};
      isOpen := false;
    }
  }
}
