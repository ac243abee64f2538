/** A read-only view of an Exodus-II mesh stored in a NetCDF dataset: block and
  * side-set names, the block start table, cached coordinates, and the node ids
  * of a block or of a side set. */
module Exodus {
  import opened Wrappers
  import opened Decimal
  import opened Text
  import opened SideTable
  import opened BlockIndex
  import opened NodeIds

  /** The opened dataset, as far as the reader looks into it. Coordinate
    * values are of an opaque type C; nothing is computed with them. */
  datatype Dataset<C> = Dataset(
    dims: map<string, nat>,               // dimension sizes
    names: map<string, seq<string>>,      // character-array variables, decoded one string per row
    ints: map<string, seq<int>>,          // one-dimensional integer variables (elem_ss<i>, side_ss<i>)
    tables: map<string, seq<seq<int>>>,   // two-dimensional integer variables (connect<i>)
    elemType: map<string, string>,        // the elem_type attribute of connect<i>
    coords: map<string, seq<C>>)          // coordx, coordy, coordz

  /** What Python raises, one constructor per kind of failure. */
  datatype MeshError =
    | MissingDimension(dim: string)                  // KeyError on the dimensions
    | MissingVariable(variable: string)              // KeyError on the variables
    | MissingAttribute(variable: string)             // AttributeError: no elem_type
    | NoNames(variable: string)                      // IndexError on ssnames[0]
    | UnknownName(name: string)                      // KeyError: no such block or side set
    | EmptyArray(variable: string)                   // ValueError: np.min/np.max of nothing
    | HeterogeneousSides(name: string)               // AssertionError: varying side ids
    | UnsupportedTopology(topo: string, side: int)   // KeyError on side_set_node_map
    | OutOfRange(index: int)                         // IndexError
    | ShapeMismatch                                  // ValueError from np.column_stack

  /** The two answers of elem_nodes and ss_nodes: the sorted distinct node ids
    * (flatten) or one row of node ids per element. */
  datatype NodeIdList = Flat(ids: seq<int>) | Table(rows: seq<seq<int>>)

  datatype Axis = X | Y | Z

  function AxisVar(axis: Axis): string
  {
    match axis
    case X => "coordx"
    case Y => "coordy"
    case Z => "coordz"
  }

  function ElemCountDim(i: nat): string { "num_el_in_blk" + Dec(i) }
  function ConnVar(i: nat): string { "connect" + Dec(i) }
  function ElemVar(i: nat): string { "elem_ss" + Dec(i) }
  function SideVar(i: nat): string { "side_ss" + Dec(i) }

  // ---------------------------------------------------------------- names

  function LowerAll(ns: seq<string>): (r: seq<string>)
    ensures |r| == |ns|
    ensures forall i :: 0 <= i < |ns| ==> r[i] == Lower(ns[i]) && IsLower(r[i])
  {
    seq(|ns|, i requires 0 <= i < |ns| => Lower(ns[i]))
  }

  /** ["<prefix><d>" for d in 1..n], as "%d" renders d. */
  function Synth(prefix: string, n: nat): (r: seq<string>)
    ensures |r| == n
  {
    seq(n, i requires 0 <= i < n => prefix + Dec(i + 1))
  }

  /** Synthetic names are pairwise distinct, so the ordinal map sends
    * "<prefix><d>" to d. */
  lemma SynthOrdinals(prefix: string, n: nat, d: nat)
    requires 1 <= d <= n
    ensures DistinctNames(Synth(prefix, n))
    ensures Synth(prefix, n)[d - 1] == prefix + Dec(d)
    ensures prefix + Dec(d) in Ordinals(Synth(prefix, n)) && Ordinals(Synth(prefix, n))[prefix + Dec(d)] == d
  {
    var s := Synth(prefix, n);
    forall i, j | 0 <= i < j < n
      ensures s[i] != s[j]
    {
      PrefixedDecInjective(prefix, i + 1, j + 1);
    }
    OrdinalOfDistinct(s, d - 1);
  }

  lemma PrefixedDecInjective(prefix: string, a: nat, b: nat)
    requires a != b
    ensures prefix + Dec(a) != prefix + Dec(b)
  {
    if prefix + Dec(a) == prefix + Dec(b) {
      assert Dec(a) == (prefix + Dec(a))[|prefix|..];
      assert Dec(b) == (prefix + Dec(b))[|prefix|..];
      DecInjective(a, b);
    }
  }

  lemma SynthLower(prefix: string, n: nat)
    requires IsLower(prefix)
    ensures forall i :: 0 <= i < n ==> IsLower(Synth(prefix, n)[i])
  {
  }

  /** _process_eb_names: the decoded eb_names lowered, else "block-1" to
    * "block-N" when the num_el_blk dimension exists, else no blocks. */
  function BlockNames<C>(msh: Dataset<C>): (r: seq<string>)
    ensures "eb_names" in msh.names ==> r == LowerAll(msh.names["eb_names"])
    ensures "eb_names" !in msh.names && "num_el_blk" in msh.dims ==>
      r == Synth("block-", msh.dims["num_el_blk"])
    ensures "eb_names" !in msh.names && "num_el_blk" !in msh.dims ==> r == []
    ensures forall i :: 0 <= i < |r| ==> IsLower(r[i])
  {
    if "eb_names" in msh.names then LowerAll(msh.names["eb_names"])
    else if "num_el_blk" in msh.dims then
      SynthLower("block-", msh.dims["num_el_blk"]);
      Synth("block-", msh.dims["num_el_blk"])
    else []
  }

  /** numel_blk: the sizes of num_el_in_blk1 .. num_el_in_blk<n>, failing on
    * the first one missing. */
  function BlockCounts<C>(msh: Dataset<C>, n: nat): (r: Result<seq<nat>, MeshError>)
    ensures r.Success? <==> forall i :: 1 <= i <= n ==> ElemCountDim(i) in msh.dims
    ensures r.Success? ==> |r.value| == n
    ensures r.Success? ==> forall i :: 0 <= i < n ==> r.value[i] == msh.dims[ElemCountDim(i + 1)]
    ensures r.Failure? ==> exists i :: (1 <= i <= n && r.error == MissingDimension(ElemCountDim(i)) &&
      ElemCountDim(i) !in msh.dims && forall j :: 1 <= j < i ==> ElemCountDim(j) in msh.dims)
  {
    if n == 0 then Success([])
    else
      match BlockCounts(msh, n - 1)
      case Failure(e) => Failure(e)
      case Success(cs) =>
        if ElemCountDim(n) in msh.dims then Success(cs + [msh.dims[ElemCountDim(n)]])
        else Failure(MissingDimension(ElemCountDim(n)))
  }

  /** The size of num_side_sets, read as 0 when the dimension is absent. */
  function NumSideSets<C>(msh: Dataset<C>): nat
  {
    if "num_side_sets" in msh.dims then msh.dims["num_side_sets"] else 0
  }

  /** _process_ss_names: with side sets, the decoded ss_names lowered, or
    * "surface-1" to "surface-N" when the first decoded name is empty;
    * without side sets, no names. */
  function SideSetNames<C>(msh: Dataset<C>): (r: Result<seq<string>, MeshError>)
    ensures NumSideSets(msh) == 0 ==> r == Success([])
    ensures r.Failure? <==> NumSideSets(msh) > 0 && ("ss_names" !in msh.names || msh.names["ss_names"] == [])
    ensures r.Success? && NumSideSets(msh) > 0 ==>
      var decoded := msh.names["ss_names"];
      r.value == if decoded[0] == "" then Synth("surface-", NumSideSets(msh)) else LowerAll(decoded)
    ensures r.Success? ==> forall i :: 0 <= i < |r.value| ==> IsLower(r.value[i])
  {
    var n := NumSideSets(msh);
    if n > 0 then
      if "ss_names" !in msh.names then Failure(MissingVariable("ss_names"))
      else
        var ssnames := LowerAll(msh.names["ss_names"]);
        if ssnames == [] then Failure(NoNames("ss_names"))
        else if ssnames[0] == "" then
          SynthLower("surface-", n);
          Success(Synth("surface-", n))
        else Success(ssnames)
    else Success([])
  }

  /** The error the constructor raises, in the order it reads the file, or None. */
  function OpenError<C>(msh: Dataset<C>): (r: Option<MeshError>)
    ensures r.None? <==>
      && "num_dim" in msh.dims && "num_elem" in msh.dims && "num_nodes" in msh.dims
      && BlockCounts(msh, |BlockNames(msh)|).Success? && SideSetNames(msh).Success?
      && "num_side_sets" in msh.dims
    ensures "num_dim" !in msh.dims ==> r == Some(MissingDimension("num_dim"))
    ensures r.Some? && r.value.MissingDimension? && r.value.dim == "num_side_sets" ==>
      BlockCounts(msh, |BlockNames(msh)|).Success? && SideSetNames(msh).Success?
  {
    if "num_dim" !in msh.dims then Some(MissingDimension("num_dim"))
    else if "num_elem" !in msh.dims then Some(MissingDimension("num_elem"))
    else if "num_nodes" !in msh.dims then Some(MissingDimension("num_nodes"))
    else if BlockCounts(msh, |BlockNames(msh)|).Failure? then Some(BlockCounts(msh, |BlockNames(msh)|).error)
    else if SideSetNames(msh).Failure? then Some(SideSetNames(msh).error)
    else if "num_side_sets" !in msh.dims then Some(MissingDimension("num_side_sets"))
    else None
  }

  /** A block listed by the reader is found again by elem_nodes: every listed
    * name is lower-case, so lowering it gives it back. */
  lemma ListedBlockIsKnown<C>(msh: Dataset<C>, i: nat, flatten: bool)
    requires i < |BlockNames(msh)|
    ensures var blocks := BlockNames(msh);
      BlockNodes(msh, blocks, Ordinals(blocks), blocks[i], flatten) != Failure(UnknownName(blocks[i]))
  {
    var blocks := BlockNames(msh);
    LowerIdempotent(blocks[i]);
    OrdinalsLast(blocks);
    assert blocks[i] in Ordinals(blocks).Keys;
  }

  /** Without eb_names, block d of N is called "block-d" and has ordinal d. */
  lemma SyntheticBlockOrdinal<C>(msh: Dataset<C>, d: nat)
    requires "eb_names" !in msh.names && "num_el_blk" in msh.dims
    requires 1 <= d <= msh.dims["num_el_blk"]
    ensures |BlockNames(msh)| == msh.dims["num_el_blk"]
    ensures BlockNames(msh)[d - 1] == "block-" + Dec(d)
    ensures "block-" + Dec(d) in Ordinals(BlockNames(msh)) && Ordinals(BlockNames(msh))["block-" + Dec(d)] == d
  {
    SynthOrdinals("block-", msh.dims["num_el_blk"], d);
  }

  // ---------------------------------------------------------------- node ids

  /** np.min of a non-empty integer array. */
  function Min(s: seq<int>): (m: int)
    requires |s| > 0
    ensures m in s && forall i :: 0 <= i < |s| ==> m <= s[i]
  {
    if |s| == 1 then s[0] else var t := Min(s[1..]); if s[0] <= t then s[0] else t
  }

  /** np.max of a non-empty integer array. */
  function Max(s: seq<int>): (m: int)
    requires |s| > 0
    ensures m in s && forall i :: 0 <= i < |s| ==> s[i] <= m
  {
    if |s| == 1 then s[0] else var t := Max(s[1..]); if s[0] >= t then s[0] else t
  }

  /** The max == min check accepts exactly the arrays whose entries all equal
    * the first. */
  lemma MaxMinHomogeneous(s: seq<int>)
    requires |s| > 0
    ensures Max(s) == Min(s) <==> forall i :: 0 <= i < |s| ==> s[i] == s[0]
  {
    if Max(s) != Min(s) {
      var a :| 0 <= a < |s| && s[a] == Max(s);
      var b :| 0 <= b < |s| && s[b] == Min(s);
      assert s[a] != s[0] || s[b] != s[0];
    }
  }

  /** Where numpy's a[i] looks in an array of length n: i itself when
    * 0 <= i < n, n + i when -n <= i < 0 (counting from the end), nowhere
    * otherwise (IndexError). */
  function NpIndex(n: nat, i: int): (r: Option<nat>)
    ensures r.Some? <==> -(n as int) <= i < n
    ensures r.Some? ==> r.value < n && (r.value == i || r.value == n + i)
    ensures 0 <= i < n ==> r == Some(i)
  {
    if 0 <= i < n then Some(i) else if -(n as int) <= i < 0 then Some(n + i) else None
  }

  /** A row index into conn, after numpy's wrap-around, from which every
    * column in cols can be read. */
  predicate RowReadable(conn: seq<seq<int>>, row: int, cols: seq<nat>)
  {
    NpIndex(|conn|, row).Some? && forall j :: 0 <= j < |cols| ==> cols[j] < |conn[NpIndex(|conn|, row).value]|
  }

  /** conn[row, col] with numpy's wrap-around on the row; only read where
    * RowReadable holds (0 elsewhere). */
  function Entry(conn: seq<seq<int>>, row: int, col: nat): int
  {
    var k := NpIndex(|conn|, row);
    if k.Some? && col < |conn[k.value]| then conn[k.value][col] else 0
  }

  /** conn[np.ix_(elemIds - offset, cols)] - 1: for each element the node ids
    * at the side's local positions, made 0-based. */
  function GatherRows(conn: seq<seq<int>>, elemIds: seq<int>, offset: int, cols: seq<nat>): (r: Result<seq<seq<int>>, MeshError>)
    ensures r.Success? <==> forall i :: 0 <= i < |elemIds| ==> RowReadable(conn, elemIds[i] - offset, cols)
    ensures r.Success? ==> |r.value| == |elemIds|
    ensures r.Success? ==> forall i :: 0 <= i < |elemIds| ==> |r.value[i]| == |cols|
    ensures r.Success? ==> forall i, j :: 0 <= i < |elemIds| && 0 <= j < |cols| ==>
      r.value[i][j] == Entry(conn, elemIds[i] - offset, cols[j]) - 1
    ensures r.Failure? ==> r.error.OutOfRange?
  {
    if forall i :: 0 <= i < |elemIds| ==> RowReadable(conn, elemIds[i] - offset, cols) then
      Success(seq(|elemIds|, i requires 0 <= i < |elemIds| =>
        seq(|cols|, j requires 0 <= j < |cols| => Entry(conn, elemIds[i] - offset, cols[j]) - 1)))
    else
      Failure(OutOfRange(elemIds[FirstUnreadable(conn, elemIds, offset, cols, 0)] - offset))
  }

  /** The position, from `from` on, of the first element whose row cannot be
    * read: the index numpy reports. */
  function FirstUnreadable(conn: seq<seq<int>>, elemIds: seq<int>, offset: int, cols: seq<nat>, from: nat): (k: nat)
    requires from < |elemIds|
    requires exists i :: from <= i < |elemIds| && !RowReadable(conn, elemIds[i] - offset, cols)
    ensures from <= k < |elemIds| && !RowReadable(conn, elemIds[k] - offset, cols)
    ensures forall i :: from <= i < k ==> RowReadable(conn, elemIds[i] - offset, cols)
    decreases |elemIds| - from
  {
    if !RowReadable(conn, elemIds[from] - offset, cols) then from
    else FirstUnreadable(conn, elemIds, offset, cols, from + 1)
  }

  function Decrement(conn: seq<seq<int>>): seq<seq<int>>
  {
    seq(|conn|, i requires 0 <= i < |conn| => seq(|conn[i]|, j requires 0 <= j < |conn[i]| => conn[i][j] - 1))
  }

  /** elem_nodes: the block's connectivity with every node id made 0-based,
    * or, flattened, the distinct node ids it mentions in increasing order. */
  function BlockNodes<C>(msh: Dataset<C>, blocks: seq<string>, elemConnMap: map<string, nat>,
                         blkName: string, flatten: bool): (r: Result<NodeIdList, MeshError>)
    ensures Lower(blkName) !in blocks || Lower(blkName) !in elemConnMap ==> r == Failure(UnknownName(blkName))
    ensures r.Success? <==> (Lower(blkName) in blocks && Lower(blkName) in elemConnMap &&
      ConnVar(elemConnMap[Lower(blkName)]) in msh.tables)
    ensures (Lower(blkName) in blocks && Lower(blkName) in elemConnMap &&
             ConnVar(elemConnMap[Lower(blkName)]) !in msh.tables) ==>
      r == Failure(MissingVariable(ConnVar(elemConnMap[Lower(blkName)])))
    ensures r.Success? ==> (r.value.Flat? <==> flatten)
    ensures r.Success? && r.value.Table? ==>
      var conn := msh.tables[ConnVar(elemConnMap[Lower(blkName)])];
      |r.value.rows| == |conn| &&
      (forall i :: 0 <= i < |conn| ==> |r.value.rows[i]| == |conn[i]|) &&
      (forall i, j :: 0 <= i < |conn| && 0 <= j < |conn[i]| ==> r.value.rows[i][j] == conn[i][j] - 1)
    ensures r.Success? && r.value.Flat? ==>
      var conn := msh.tables[ConnVar(elemConnMap[Lower(blkName)])];
      StrictlyIncreasing(r.value.ids) &&
      forall y :: y in r.value.ids <==> exists i :: 0 <= i < |conn| && y + 1 in conn[i]
  {
    var bname := Lower(blkName);
    if bname !in blocks || bname !in elemConnMap then Failure(UnknownName(blkName))
    else
      var connName := ConnVar(elemConnMap[bname]);
      if connName !in msh.tables then Failure(MissingVariable(connName))
      else
        var elemIds := Decrement(msh.tables[connName]);
        if flatten then
          FlatDecrement(msh.tables[connName]);
          Success(Flat(Unique(Concat(elemIds))))
        else Success(Table(elemIds))
  }

  lemma FlatDecrement(conn: seq<seq<int>>)
    ensures forall y :: y in Concat(Decrement(conn)) <==> exists i :: 0 <= i < |conn| && y + 1 in conn[i]
  {
    var d := Decrement(conn);
    forall y
      ensures y in Concat(d) <==> exists i :: 0 <= i < |conn| && y + 1 in conn[i]
    {
      if y in Concat(d) {
        var i :| 0 <= i < |d| && y in d[i];
        var j :| 0 <= j < |d[i]| && d[i][j] == y;
        assert conn[i][j] == y + 1;
      }
      if exists i :: 0 <= i < |conn| && y + 1 in conn[i] {
        var i :| 0 <= i < |conn| && y + 1 in conn[i];
        var j :| 0 <= j < |conn[i]| && conn[i][j] == y + 1;
        assert d[i][j] == y;
      }
    }
  }

  /** ss_nodes, step by step as ss_nodes takes them, with the row offset as
    * written (see RowOffset). starts is el_start_idx and counts is numel_blk. */
  function SideSetNodes<C>(msh: Dataset<C>, sideSets: seq<string>, ssetMap: map<string, nat>,
                           starts: seq<int>, counts: seq<nat>,
                           ssName: string, flatten: bool): (r: Result<NodeIdList, MeshError>)
    ensures Lower(ssName) !in sideSets || Lower(ssName) !in ssetMap ==> r == Failure(UnknownName(ssName))
    ensures Lower(ssName) in sideSets && Lower(ssName) in ssetMap ==>
      var ssid := ssetMap[Lower(ssName)];
      && (SideVar(ssid) !in msh.ints ==> r == Failure(MissingVariable(SideVar(ssid))))
      && (SideVar(ssid) in msh.ints && msh.ints[SideVar(ssid)] == [] ==> r == Failure(EmptyArray(SideVar(ssid))))
    ensures (Lower(ssName) in sideSets && Lower(ssName) in ssetMap &&
             SideVar(ssetMap[Lower(ssName)]) in msh.ints && msh.ints[SideVar(ssetMap[Lower(ssName)])] != []) ==>
      var ssid := ssetMap[Lower(ssName)];
      var sides := msh.ints[SideVar(ssid)];
      && ((exists i :: 0 <= i < |sides| && sides[i] != sides[0]) ==> r == Failure(HeterogeneousSides(ssName)))
      && ((forall i :: 0 <= i < |sides| ==> sides[i] == sides[0]) ==>
           && (ElemVar(ssid) !in msh.ints ==> r == Failure(MissingVariable(ElemVar(ssid))))
           && (ElemVar(ssid) in msh.ints && msh.ints[ElemVar(ssid)] == [] ==> r == Failure(EmptyArray(ElemVar(ssid))))
           && (ElemVar(ssid) in msh.ints && msh.ints[ElemVar(ssid)] != [] ==>
                var elemIds := msh.ints[ElemVar(ssid)];
                r == ResolveInBlock(msh, CountBelow(starts, Min(elemIds)), counts, elemIds, sides[0], flatten)))
    ensures r.Success? || r.error.HeterogeneousSides? ==>
      Lower(ssName) in sideSets && Lower(ssName) in ssetMap &&
      SideVar(ssetMap[Lower(ssName)]) in msh.ints && |msh.ints[SideVar(ssetMap[Lower(ssName)])]| > 0
    ensures r.Success? ==>
      var sides := msh.ints[SideVar(ssetMap[Lower(ssName)])];
      forall i :: 0 <= i < |sides| ==> sides[i] == sides[0]
    ensures r.Failure? && r.error.HeterogeneousSides? ==>
      var sides := msh.ints[SideVar(ssetMap[Lower(ssName)])];
      exists i :: 0 <= i < |sides| && sides[i] != sides[0]
    ensures r.Success? ==> (r.value.Flat? <==> flatten)
    ensures r.Success? && r.value.Flat? ==> StrictlyIncreasing(r.value.ids)
  {
    var sname := Lower(ssName);
    if sname !in sideSets || sname !in ssetMap then Failure(UnknownName(ssName))
    else
      var ssid := ssetMap[sname];
      if SideVar(ssid) !in msh.ints then Failure(MissingVariable(SideVar(ssid)))
      else
        var sideIds := msh.ints[SideVar(ssid)];
        if sideIds == [] then Failure(EmptyArray(SideVar(ssid)))
        else if Max(sideIds) != Min(sideIds) then
          MaxMinHomogeneous(sideIds);
          Failure(HeterogeneousSides(ssName))
        else if ElemVar(ssid) !in msh.ints then Failure(MissingVariable(ElemVar(ssid)))
        else
          MaxMinHomogeneous(sideIds);
          var elemIds := msh.ints[ElemVar(ssid)];
          if elemIds == [] then Failure(EmptyArray(ElemVar(ssid)))
          else
            var blkId := CountBelow(starts, Min(elemIds));
            ResolveInBlock(msh, blkId, counts, elemIds, sideIds[0], flatten)
  }

  /** The part of ss_nodes after the owning block is known: its topology, the
    * side's local nodes, the as-written row offset and the gather. */
  function ResolveInBlock<C>(msh: Dataset<C>, blkId: nat, counts: seq<nat>,
                             elemIds: seq<int>, side: int, flatten: bool): (r: Result<NodeIdList, MeshError>)
    ensures ConnVar(blkId) !in msh.tables ==> r == Failure(MissingVariable(ConnVar(blkId)))
    ensures ConnVar(blkId) in msh.tables && ConnVar(blkId) !in msh.elemType ==>
      r == Failure(MissingAttribute(ConnVar(blkId)))
    ensures (ConnVar(blkId) in msh.tables && ConnVar(blkId) in msh.elemType &&
             SideNodes(msh.elemType[ConnVar(blkId)], side).None?) ==>
      r == Failure(UnsupportedTopology(msh.elemType[ConnVar(blkId)], side))
    ensures (ConnVar(blkId) in msh.tables && ConnVar(blkId) in msh.elemType &&
             SideNodes(msh.elemType[ConnVar(blkId)], side).Some? && RowOffset(blkId, counts).None?) ==>
      r == Failure(OutOfRange(blkId as int - 1))
    ensures (ConnVar(blkId) in msh.tables && ConnVar(blkId) in msh.elemType &&
             SideNodes(msh.elemType[ConnVar(blkId)], side).Some? && RowOffset(blkId, counts).Some?) ==>
      r == GatherNodes(msh.tables[ConnVar(blkId)], elemIds, RowOffset(blkId, counts).value,
                       SideNodes(msh.elemType[ConnVar(blkId)], side).value, flatten)
    ensures r.Success? ==> (ConnVar(blkId) in msh.tables && ConnVar(blkId) in msh.elemType &&
      SideNodes(msh.elemType[ConnVar(blkId)], side).Some? && RowOffset(blkId, counts).Some?)
    ensures r.Success? ==>
      r == GatherNodes(msh.tables[ConnVar(blkId)], elemIds, RowOffset(blkId, counts).value,
                       SideNodes(msh.elemType[ConnVar(blkId)], side).value, flatten)
  {
    var connName := ConnVar(blkId);
    if connName !in msh.tables then Failure(MissingVariable(connName))
    else if connName !in msh.elemType then Failure(MissingAttribute(connName))
    else
      var topo := msh.elemType[connName];
      match SideNodes(topo, side)
      case None => Failure(UnsupportedTopology(topo, side))
      case Some(cols) =>
        match RowOffset(blkId, counts)
        case None => Failure(OutOfRange(blkId as int - 1))
        case Some(offset) => GatherNodes(msh.tables[connName], elemIds, offset, cols, flatten)
  }

  /** The gather of ss_nodes and its optional np.unique: one row per element
    * with the side's node ids, or the distinct ids of all those rows. */
  function GatherNodes(conn: seq<seq<int>>, elemIds: seq<int>, offset: int, cols: seq<nat>,
                       flatten: bool): (r: Result<NodeIdList, MeshError>)
    ensures r.Success? <==> forall i :: 0 <= i < |elemIds| ==> RowReadable(conn, elemIds[i] - offset, cols)
    ensures r.Failure? ==> r.error.OutOfRange?
    ensures r.Success? ==> (r.value.Flat? <==> flatten)
    ensures r.Success? && !flatten ==> r.value == Table(GatherRows(conn, elemIds, offset, cols).value)
    ensures r.Success? && flatten ==> StrictlyIncreasing(r.value.ids)
    ensures r.Success? && flatten ==> forall y :: y in r.value.ids <==>
      exists i, j :: 0 <= i < |elemIds| && 0 <= j < |cols| && y == Entry(conn, elemIds[i] - offset, cols[j]) - 1
  {
    match GatherRows(conn, elemIds, offset, cols)
    case Failure(e) => Failure(e)
    case Success(rows) =>
      if flatten then
        FlatRows(conn, elemIds, offset, cols, rows);
        Success(Flat(Unique(Concat(rows))))
      else Success(Table(rows))
  }

  lemma FlatRows(conn: seq<seq<int>>, elemIds: seq<int>, offset: int, cols: seq<nat>, rows: seq<seq<int>>)
    requires GatherRows(conn, elemIds, offset, cols) == Success(rows)
    ensures forall y :: y in Concat(rows) <==>
      exists i, j :: 0 <= i < |elemIds| && 0 <= j < |cols| && y == Entry(conn, elemIds[i] - offset, cols[j]) - 1
  {
    forall y | y in Concat(rows)
      ensures exists i, j :: 0 <= i < |elemIds| && 0 <= j < |cols| && y == Entry(conn, elemIds[i] - offset, cols[j]) - 1
    {
      var i :| 0 <= i < |rows| && y in rows[i];
      var j :| 0 <= j < |rows[i]| && rows[i][j] == y;
      assert y == Entry(conn, elemIds[i] - offset, cols[j]) - 1;
    }
    forall y, i, j | 0 <= i < |elemIds| && 0 <= j < |cols| && y == Entry(conn, elemIds[i] - offset, cols[j]) - 1
      ensures y in Concat(rows)
    {
      assert rows[i][j] == y;
      assert y in rows[i];
    }
  }

  /** Every element of a side set on the first block is read from its own row:
    * there the as-written offset of 1 is the intended one. */
  lemma FirstBlockRowsInRange(counts: seq<nat>, conn: seq<seq<int>>, elemIds: seq<int>, cols: seq<nat>, width: nat)
    requires |counts| > 0 && |conn| == counts[0]
    requires forall r :: 0 <= r < |conn| ==> |conn[r]| == width
    requires forall j :: 0 <= j < |cols| ==> cols[j] < width
    requires |elemIds| > 0
    requires forall i :: 0 <= i < |elemIds| ==> 0 < elemIds[i] <= counts[0]
    ensures CountBelow(Starts(counts), Min(elemIds)) == 1
    ensures GatherRows(conn, elemIds, RowOffset(1, counts).value, cols).Success?
  {
    assert counts[..0] == [];
    OwningBlock(counts, 0, Min(elemIds));
  }

  /** With the intended offset (the owning block's start plus one), a side set
    * whose elements all lie in block k + 1 is gathered without an index error. */
  lemma IntendedOffsetGathers(counts: seq<nat>, k: nat, conn: seq<seq<int>>, elemIds: seq<int>, cols: seq<nat>, width: nat)
    requires k < |counts| && |conn| == counts[k]
    requires forall r :: 0 <= r < |conn| ==> |conn[r]| == width
    requires forall j :: 0 <= j < |cols| ==> cols[j] < width
    requires |elemIds| > 0
    requires forall i :: 0 <= i < |elemIds| ==> Starts(counts)[k] < elemIds[i] <= Starts(counts)[k] + counts[k]
    ensures CountBelow(Starts(counts), Min(elemIds)) == k + 1
    ensures GatherRows(conn, elemIds, IntendedRowOffset(k + 1, counts).value, cols).Success?
  {
    OwningBlock(counts, k, Min(elemIds));
    forall i | 0 <= i < |elemIds|
      ensures RowReadable(conn, elemIds[i] - IntendedRowOffset(k + 1, counts).value, cols)
    {
      IntendedRowInBlock(counts, k, elemIds[i]);
    }
  }

  /** As written, the first element (id 11) of the second of two blocks of
    * 10 and 20 elements is read from row 11 - 20 = -9, which numpy wraps to
    * row 11 of the block's connectivity; the intended offset reads row 0. */
  lemma AsWrittenOffsetMisreads(conn: seq<seq<int>>)
    requires |conn| == 20
    requires forall r :: 0 <= r < |conn| ==> |conn[r]| > 0
    ensures CountBelow(Starts([10, 20]), 11) == 2
    ensures RowOffset(2, [10, 20]) == Some(20)
    ensures GatherRows(conn, [11], 20, [0]) == Success([[conn[11][0] - 1]])
    ensures IntendedRowOffset(2, [10, 20]) == Some(11)
    ensures GatherRows(conn, [11], 11, [0]) == Success([[conn[0][0] - 1]])
  {
    assert [10, 20][..1] == [10] && [10][..0] == [];
    OwningBlock([10, 20], 1, 11);
    RowGathered(conn, 11, 20);
    RowGathered(conn, 11, 11);
  }

  /** Gathering column 0 for one element reads the row the offset designates. */
  lemma RowGathered(conn: seq<seq<int>>, id: int, offset: int)
    requires NpIndex(|conn|, id - offset).Some? && 0 < |conn[NpIndex(|conn|, id - offset).value]|
    ensures GatherRows(conn, [id], offset, [0]) == Success([[Entry(conn, id - offset, 0) - 1]])
  {
    assert RowReadable(conn, id - offset, [0]);
    var r := GatherRows(conn, [id], offset, [0]);
    assert r.Success? && |r.value| == 1 && |r.value[0]| == 1;
    assert r.value[0][0] == Entry(conn, id - offset, [0][0]) - 1;
    assert r.value[0] == [Entry(conn, id - offset, 0) - 1];
    assert r.value == [r.value[0]];
  }

  /** As written, element 12 of two blocks of 10 and 5 elements is sent to
    * row 12 - 5 = 7, past the 5 rows of the block that owns it, and the
    * gather fails; the intended offset reads row 1. */
  lemma AsWrittenOffsetOverruns(conn: seq<seq<int>>)
    requires |conn| == 5
    requires forall r :: 0 <= r < |conn| ==> |conn[r]| > 0
    ensures CountBelow(Starts([10, 5]), 12) == 2
    ensures RowOffset(2, [10, 5]) == Some(5)
    ensures GatherRows(conn, [12], 5, [0]) == Failure(OutOfRange(7))
    ensures IntendedRowOffset(2, [10, 5]) == Some(11)
    ensures GatherRows(conn, [12], 11, [0]) == Success([[conn[1][0] - 1]])
  {
    assert [10, 5][..1] == [10] && [10][..0] == [];
    OwningBlock([10, 5], 1, 12);
    assert !RowReadable(conn, [12][0] - 5, [0]);
    assert FirstUnreadable(conn, [12], 5, [0], 0) == 0;
    RowGathered(conn, 12, 11);
  }

  /** The same overrun through the whole of ss_nodes: a HEX side set whose one
    * element, 12, lies in the second of two blocks of 10 and 5 elements fails
    * with an index error on row 7. */
  lemma SideSetOverrunsAsWritten<C>(msh: Dataset<C>, flatten: bool)
    requires SideVar(1) in msh.ints && msh.ints[SideVar(1)] == [1]
    requires ElemVar(1) in msh.ints && msh.ints[ElemVar(1)] == [12]
    requires ConnVar(2) in msh.tables && |msh.tables[ConnVar(2)]| == 5
    requires ConnVar(2) in msh.elemType && msh.elemType[ConnVar(2)] == "HEX"
    ensures SideSetNodes(msh, ["surface-1"], map["surface-1" := 1], Starts([10, 5]), [10, 5], "surface-1", flatten)
      == Failure(OutOfRange(7))
  {
    LowerIdempotent("surface-1");
    assert [10, 5][..1] == [10] && [10][..0] == [];
    OwningBlock([10, 5], 1, 12);
    assert Min([12]) == 12 && Max([1]) == Min([1]);
    var conn := msh.tables[ConnVar(2)];
    var cols := SideNodes("HEX", 1).value;
    assert !RowReadable(conn, [12][0] - 5, cols);
    assert FirstUnreadable(conn, [12], 5, cols, 0) == 0;
    assert GatherRows(conn, [12], 5, cols) == Failure(OutOfRange(7));
    assert ResolveInBlock(msh, 2, [10, 5], [12], 1, flatten) == Failure(OutOfRange(7));
  }

  // ---------------------------------------------------------------- coordinates

  /** col[idx] for an integer index array: entry i is the column entry that
    * idx[i] designates, counting from the end for a negative index; any
    * index outside -|col| .. |col| - 1 fails. */
  function Pick<C>(col: seq<C>, idx: seq<int>): (r: Result<seq<C>, MeshError>)
    ensures r.Success? <==> forall i :: 0 <= i < |idx| ==> NpIndex(|col|, idx[i]).Some?
    ensures r.Success? ==> |r.value| == |idx|
    ensures r.Success? ==> forall i :: 0 <= i < |idx| ==> r.value[i] == col[NpIndex(|col|, idx[i]).value]
    ensures r.Failure? ==> r.error.OutOfRange? && r.error.index in idx
  {
    if idx == [] then Success([])
    else
      match NpIndex(|col|, idx[0])
      case None => Failure(OutOfRange(idx[0]))
      case Some(k) =>
        match Pick(col, idx[1..])
        case Failure(e) => Failure(e)
        case Success(rest) => Success([col[k]] + rest)
  }

  /** The whole column when there is no mask, the selected entries otherwise. */
  function Masked<C>(col: seq<C>, mask: Option<seq<int>>): (r: Result<seq<C>, MeshError>)
    ensures mask.None? ==> r == Success(col)
    ensures mask.Some? ==> (r.Success? <==> forall i :: 0 <= i < |mask.value| ==> NpIndex(|col|, mask.value[i]).Some?)
    ensures mask.Some? && r.Success? ==> |r.value| == |mask.value|
    ensures mask.Some? && r.Success? ==>
      forall i :: 0 <= i < |mask.value| ==> r.value[i] == col[NpIndex(|col|, mask.value[i]).value]
    ensures r.Failure? ==> mask.Some? && r.error.OutOfRange? && r.error.index in mask.value
  {
    match mask
    case None => Success(col)
    case Some(idx) => Pick(col, idx)
  }

  /** What xco, yco and zco return, leaving the cache aside. */
  function AxisValues<C>(msh: Dataset<C>, axis: Axis, mask: Option<seq<int>>): (r: Result<seq<C>, MeshError>)
    ensures AxisVar(axis) !in msh.coords ==> r == Failure(MissingVariable(AxisVar(axis)))
    ensures AxisVar(axis) in msh.coords ==> r == Masked(msh.coords[AxisVar(axis)], mask)
  {
    if AxisVar(axis) !in msh.coords then Failure(MissingVariable(AxisVar(axis)))
    else Masked(msh.coords[AxisVar(axis)], mask)
  }

  /** np.column_stack: row i holds entry i of every column; columns of
    * different lengths are refused. */
  function StackColumns<C>(cols: seq<seq<C>>): (r: Result<seq<seq<C>>, MeshError>)
    requires |cols| > 0
    ensures r.Success? <==> forall j :: 0 <= j < |cols| ==> |cols[j]| == |cols[0]|
    ensures r.Success? ==> |r.value| == |cols[0]|
    ensures r.Success? ==> forall i :: 0 <= i < |cols[0]| ==> |r.value[i]| == |cols|
    ensures r.Success? ==> forall i, j :: 0 <= i < |cols[0]| && 0 <= j < |cols| ==> r.value[i][j] == cols[j][i]
  {
    if forall j :: 0 <= j < |cols| ==> |cols[j]| == |cols[0]| then
      Success(seq(|cols[0]|, i requires 0 <= i < |cols[0]| =>
        seq(|cols|, j requires 0 <= j < |cols| => cols[j][i])))
    else Failure(ShapeMismatch)
  }

  /** coords: x, y and, for a three-dimensional mesh, z, each with the same
    * mask, stacked as the columns of one row per node. */
  function CoordsOf<C>(msh: Dataset<C>, mask: Option<seq<int>>): (r: Result<seq<seq<C>>, MeshError>)
    ensures r.Success? ==> "num_dim" in msh.dims && AxisValues(msh, X, mask).Success? && AxisValues(msh, Y, mask).Success?
    ensures r.Success? ==>
      var x := AxisValues(msh, X, mask).value;
      var y := AxisValues(msh, Y, mask).value;
      |r.value| == |x| == |y| &&
      forall i :: 0 <= i < |x| ==>
        (|r.value[i]| == (if msh.dims["num_dim"] == 3 then 3 else 2) &&
         r.value[i][0] == x[i] && r.value[i][1] == y[i])
    ensures r.Success? && msh.dims["num_dim"] == 3 ==>
      AxisValues(msh, Z, mask).Success? &&
      |AxisValues(msh, Z, mask).value| == |r.value| &&
      forall i :: 0 <= i < |r.value| ==> r.value[i][2] == AxisValues(msh, Z, mask).value[i]
    ensures "num_dim" in msh.dims && AxisVar(X) !in msh.coords ==> r == Failure(MissingVariable("coordx"))
    ensures "num_dim" !in msh.dims ==> r == Failure(MissingDimension("num_dim"))
    ensures r.Success? <==>
      && "num_dim" in msh.dims
      && AxisValues(msh, X, mask).Success? && AxisValues(msh, Y, mask).Success?
      && |AxisValues(msh, Y, mask).value| == |AxisValues(msh, X, mask).value|
      && (msh.dims["num_dim"] == 3 ==>
            AxisValues(msh, Z, mask).Success? &&
            |AxisValues(msh, Z, mask).value| == |AxisValues(msh, X, mask).value|)
  {
    if "num_dim" !in msh.dims then Failure(MissingDimension("num_dim"))
    else
      var x :- AxisValues(msh, X, mask);
      var y :- AxisValues(msh, Y, mask);
      if msh.dims["num_dim"] == 3 then
        var z :- AxisValues(msh, Z, mask);
        var cols := [x, y, z];
        assert cols[0] == x && cols[1] == y && cols[2] == z;
        StackColumns(cols)
      else
        var cols := [x, y];
        assert cols[0] == x && cols[1] == y;
        StackColumns(cols)
  }

  // ---------------------------------------------------------------- the reader object

  /** ExodusCDF: the metadata its constructor derives, and the coordinate
    * caches its axis accessors fill on first use. */
  class ExodusCDF<C> {
    const msh: Dataset<C>
    var ndim: nat
    var nelems: nat
    var nnodes: nat
    var blocks: seq<string>
    var elemConnMap: map<string, nat>
    var numelBlk: seq<nat>
    var elStartIdx: array<nat>
    var numBlocks: nat
    var sideSets: seq<string>
    var ssetMap: map<string, nat>
    var numSideSets: nat
    var xcoCache: Option<seq<C>>
    var ycoCache: Option<seq<C>>
    var zcoCache: Option<seq<C>>

    function Cache(axis: Axis): Option<seq<C>>
      reads this
    {
      match axis
      case X => xcoCache
      case Y => ycoCache
      case Z => zcoCache
    }

    /** A cached axis is the dataset's own variable. */
    ghost predicate CachesValid()
      reads this
    {
      forall axis: Axis :: Cache(axis).Some? ==>
        AxisVar(axis) in msh.coords && Cache(axis).value == msh.coords[AxisVar(axis)]
    }

    /** The fields are what the constructor derives from the dataset. */
    ghost predicate Valid()
      reads this, elStartIdx
    {
      && OpenError(msh).None?
      && ndim == msh.dims["num_dim"] && nelems == msh.dims["num_elem"] && nnodes == msh.dims["num_nodes"]
      && blocks == BlockNames(msh)
      && elemConnMap == Ordinals(blocks)
      && BlockCounts(msh, |blocks|) == Success(numelBlk)
      && elStartIdx[..] == Starts(numelBlk)
      && numBlocks == |blocks|
      && SideSetNames(msh) == Success(sideSets)
      && ssetMap == Ordinals(sideSets)
      && numSideSets == msh.dims["num_side_sets"]
      && CachesValid()
    }

    constructor Init(msh: Dataset<C>, ndim: nat, nelems: nat, nnodes: nat)
      ensures this.msh == msh && this.ndim == ndim && this.nelems == nelems && this.nnodes == nnodes
      ensures xcoCache.None? && ycoCache.None? && zcoCache.None?
    {
      this.msh := msh;
      this.ndim, this.nelems, this.nnodes := ndim, nelems, nnodes;
      blocks, elemConnMap, numelBlk, numBlocks := [], map[], [], 0;
      elStartIdx := new nat[0];
      sideSets, ssetMap, numSideSets := [], map[], 0;
      xcoCache, ycoCache, zcoCache := None, None, None;
    }

    /** ExodusCDF(filename): reads the three mandatory dimensions, then the
      * block and side-set metadata; any missing piece aborts construction. */
    static method Open(msh: Dataset<C>) returns (r: Result<ExodusCDF<C>, MeshError>)
      ensures r.Failure? <==> OpenError(msh).Some?
      ensures r.Failure? ==> r.error == OpenError(msh).value
      ensures r.Success? ==> fresh(r.value) && fresh(r.value.elStartIdx) && r.value.msh == msh && r.value.Valid()
      ensures r.Success? ==> r.value.xcoCache.None? && r.value.ycoCache.None? && r.value.zcoCache.None?
    {
      if "num_dim" !in msh.dims { return Failure(MissingDimension("num_dim")); }
      if "num_elem" !in msh.dims { return Failure(MissingDimension("num_elem")); }
      if "num_nodes" !in msh.dims { return Failure(MissingDimension("num_nodes")); }
      var e := new ExodusCDF<C>.Init(msh, msh.dims["num_dim"], msh.dims["num_elem"], msh.dims["num_nodes"]);
      var err := e.ProcessEbNames();
      if err.Some? { return Failure(err.value); }
      err := e.ProcessSsNames();
      if err.Some? { return Failure(err.value); }
      return Success(e);
    }

    /** _process_eb_names: block names, their ordinals, the block sizes and
      * the start table, filled in place by the prefix-sum loop. */
    method ProcessEbNames() returns (err: Option<MeshError>)
      modifies this
      ensures ndim == old(ndim) && nelems == old(nelems) && nnodes == old(nnodes)
      ensures xcoCache == old(xcoCache) && ycoCache == old(ycoCache) && zcoCache == old(zcoCache)
      ensures sideSets == old(sideSets) && ssetMap == old(ssetMap) && numSideSets == old(numSideSets)
      ensures blocks == BlockNames(msh) && elemConnMap == Ordinals(blocks)
      ensures err.None? <==> BlockCounts(msh, |blocks|).Success?
      ensures err.Some? ==> err.value == BlockCounts(msh, |blocks|).error
      ensures err.Some? ==> numelBlk == old(numelBlk) && elStartIdx == old(elStartIdx) && numBlocks == old(numBlocks)
      ensures err.None? ==> (BlockCounts(msh, |blocks|) == Success(numelBlk) && fresh(elStartIdx) &&
        elStartIdx[..] == Starts(numelBlk) && numBlocks == |blocks|)
    {
      var names := BlockNames(msh);
      blocks, elemConnMap := names, Ordinals(names);
      err := StoreCounts(BlockCounts(msh, |names|));
    }

    /** The second half of _process_eb_names: the block sizes, once read, and
      * the start table built from them. */
    method StoreCounts(counts: Result<seq<nat>, MeshError>) returns (err: Option<MeshError>)
      modifies this
      ensures ndim == old(ndim) && nelems == old(nelems) && nnodes == old(nnodes)
      ensures xcoCache == old(xcoCache) && ycoCache == old(ycoCache) && zcoCache == old(zcoCache)
      ensures sideSets == old(sideSets) && ssetMap == old(ssetMap) && numSideSets == old(numSideSets)
      ensures blocks == old(blocks) && elemConnMap == old(elemConnMap)
      ensures err.None? <==> counts.Success?
      ensures err.Some? ==> err.value == counts.error
      ensures err.Some? ==> numelBlk == old(numelBlk) && elStartIdx == old(elStartIdx) && numBlocks == old(numBlocks)
      ensures err.None? ==> (numelBlk == counts.value && fresh(elStartIdx) &&
        elStartIdx[..] == Starts(numelBlk) && numBlocks == |blocks|)
    {
      if counts.Failure? { return Some(counts.error); }
      var starts := PrefixStarts(counts.value);
      numelBlk, elStartIdx, numBlocks := counts.value, starts, |blocks|;
      return None;
    }

    /** The start table of _process_eb_names: a zero-filled array whose entry
      * i, from 1 on, is entry i - 1 plus the size of block i - 1. */
    static method PrefixStarts(counts: seq<nat>) returns (starts: array<nat>)
      ensures fresh(starts)
      ensures starts[..] == Starts(counts)
    {
      var n := |counts|;
      starts := new nat[n](_ => 0);
      var i := 1;
      while i < n
        invariant n == 0 || 1 <= i <= n
        invariant forall j :: 0 <= j < i && j < n ==> starts[j] == Sum(counts[..j])
      {
        assert counts[..i][..i - 1] == counts[..i - 1];
        starts[i] := counts[i - 1] + starts[i - 1];
        i := i + 1;
      }
      assert n == 0 ==> starts[..] == [];
    }

    /** _process_ss_names: side-set names and their ordinals, then the
      * num_side_sets dimension, which is read even when it is absent. */
    method ProcessSsNames() returns (err: Option<MeshError>)
      modifies this
      ensures ndim == old(ndim) && nelems == old(nelems) && nnodes == old(nnodes)
      ensures blocks == old(blocks) && elemConnMap == old(elemConnMap) && numelBlk == old(numelBlk)
      ensures elStartIdx == old(elStartIdx) && numBlocks == old(numBlocks)
      ensures xcoCache == old(xcoCache) && ycoCache == old(ycoCache) && zcoCache == old(zcoCache)
      ensures err.None? <==> SideSetNames(msh).Success? && "num_side_sets" in msh.dims
      ensures err.Some? && SideSetNames(msh).Failure? ==> err.value == SideSetNames(msh).error
      ensures err.Some? && SideSetNames(msh).Success? ==> err.value == MissingDimension("num_side_sets")
      ensures err.None? ==> (SideSetNames(msh) == Success(sideSets) && ssetMap == Ordinals(sideSets) &&
        numSideSets == msh.dims["num_side_sets"])
    {
      var names := SideSetNames(msh);
      if names.Failure? { return Some(names.error); }
      sideSets := names.value;
      ssetMap := Ordinals(sideSets);
      if "num_side_sets" !in msh.dims { return Some(MissingDimension("num_side_sets")); }
      numSideSets := msh.dims["num_side_sets"];
      return None;
    }

    /** xco, yco, zco: the axis variable must exist; it is read into the cache
      * on the first call and served from the cache afterwards. */
    method Coord(axis: Axis, mask: Option<seq<int>>) returns (r: Result<seq<C>, MeshError>)
      modifies this`xcoCache, this`ycoCache, this`zcoCache
      ensures forall a: Axis :: a != axis ==> Cache(a) == old(Cache(a))
      ensures AxisVar(axis) !in msh.coords ==>
        r == Failure(MissingVariable(AxisVar(axis))) && Cache(axis) == old(Cache(axis))
      ensures AxisVar(axis) in msh.coords ==>
        Cache(axis) == (if old(Cache(axis)).Some? then old(Cache(axis)) else Some(msh.coords[AxisVar(axis)])) &&
        r == Masked(Cache(axis).value, mask)
      ensures old(CachesValid()) ==> CachesValid() && r == AxisValues(msh, axis, mask)
    {
      if AxisVar(axis) !in msh.coords {
        return Failure(MissingVariable(AxisVar(axis)));
      }
      match axis {
        case X => if xcoCache.None? { xcoCache := Some(msh.coords["coordx"]); }
        case Y => if ycoCache.None? { ycoCache := Some(msh.coords["coordy"]); }
        case Z => if zcoCache.None? { zcoCache := Some(msh.coords["coordz"]); }
      }
      r := Masked(Cache(axis).value, mask);
    }

    method Xco(mask: Option<seq<int>>) returns (r: Result<seq<C>, MeshError>)
      requires CachesValid()
      modifies this`xcoCache, this`ycoCache, this`zcoCache
      ensures CachesValid() && r == AxisValues(msh, X, mask)
      ensures forall a: Axis :: old(Cache(a)).Some? ==> Cache(a) == old(Cache(a))
    {
      r := Coord(X, mask);
    }

    method Yco(mask: Option<seq<int>>) returns (r: Result<seq<C>, MeshError>)
      requires CachesValid()
      modifies this`xcoCache, this`ycoCache, this`zcoCache
      ensures CachesValid() && r == AxisValues(msh, Y, mask)
      ensures forall a: Axis :: old(Cache(a)).Some? ==> Cache(a) == old(Cache(a))
    {
      r := Coord(Y, mask);
    }

    method Zco(mask: Option<seq<int>>) returns (r: Result<seq<C>, MeshError>)
      requires CachesValid()
      modifies this`xcoCache, this`ycoCache, this`zcoCache
      ensures CachesValid() && r == AxisValues(msh, Z, mask)
      ensures forall a: Axis :: old(Cache(a)).Some? ==> Cache(a) == old(Cache(a))
    {
      r := Coord(Z, mask);
    }

    /** coords: the axes through their caches, stacked as columns. */
    method Coords(mask: Option<seq<int>>) returns (r: Result<seq<seq<C>>, MeshError>)
      requires CachesValid()
      modifies this`xcoCache, this`ycoCache, this`zcoCache
      ensures CachesValid() && r == CoordsOf(msh, mask)
      ensures forall a: Axis :: old(Cache(a)).Some? ==> Cache(a) == old(Cache(a))
    {
      if "num_dim" !in msh.dims { return Failure(MissingDimension("num_dim")); }
      var nd := msh.dims["num_dim"];
      var x := Xco(mask);
      if x.Failure? { return Failure(x.error); }
      var y := Yco(mask);
      if y.Failure? { return Failure(y.error); }
      if nd == 3 {
        var z := Zco(mask);
        if z.Failure? { return Failure(z.error); }
        r := StackColumns([x.value, y.value, z.value]);
      } else {
        r := StackColumns([x.value, y.value]);
      }
    }

    /** elem_nodes, from the names and ordinals the constructor stored. */
    function ElemNodes(blkName: string, flatten: bool): (r: Result<NodeIdList, MeshError>)
      reads this, elStartIdx
      ensures Valid() ==> r == BlockNodes(msh, BlockNames(msh), Ordinals(BlockNames(msh)), blkName, flatten)
    {
      BlockNodes(msh, blocks, elemConnMap, blkName, flatten)
    }

    /** ss_nodes, from the side-set names, ordinals, start table and block
      * sizes the constructor stored. */
    function SsNodes(ssName: string, flatten: bool): (r: Result<NodeIdList, MeshError>)
      reads this, elStartIdx
      ensures Valid() ==>
        var counts := BlockCounts(msh, |BlockNames(msh)|).value;
        r == SideSetNodes(msh, SideSetNames(msh).value, Ordinals(SideSetNames(msh).value),
                          Starts(counts), counts, ssName, flatten)
    {
      SideSetNodes(msh, sideSets, ssetMap, elStartIdx[..], numelBlk, ssName, flatten)
    }
  }
}
