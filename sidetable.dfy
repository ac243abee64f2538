/** The static table from a cell topology and a local side number to the
  * local node indices that bound that side. */
module SideTable {
  import opened Wrappers

  /** Number of nodes of each reference cell the table knows. */
  function NodeCount(topo: string): Option<nat>
  {
    if topo == "HEX" then Some(8)
    else if topo == "TETRA" then Some(4)
    else if topo == "WEDGE" then Some(6)
    else if topo == "QUAD4" then Some(4)
    else None
  }

  predicate Distinct(s: seq<nat>)
  {
    forall i, j :: 0 <= i < j < |s| ==> s[i] != s[j]
  }

  /** side_set_node_map[topo][side], or None where Python raises KeyError. */
  function SideNodes(topo: string, side: int): (r: Option<seq<nat>>)
    ensures r.Some? <==>
      || (topo == "HEX" && 1 <= side <= 6)
      || (topo == "TETRA" && 1 <= side <= 4)
      || (topo == "WEDGE" && 1 <= side <= 5)
      || (topo == "QUAD4" && 1 <= side <= 4)
    ensures r.Some? ==> NodeCount(topo).Some?
    ensures r.Some? ==> forall i :: 0 <= i < |r.value| ==> r.value[i] < NodeCount(topo).value
    ensures r.Some? ==> Distinct(r.value)
    ensures r.Some? ==> 2 <= |r.value| <= 4
  {
    if topo == "HEX" then
      if side == 1 then Some([0, 1, 5, 4])
      else if side == 2 then Some([1, 2, 6, 5])
      else if side == 3 then Some([2, 3, 7, 6])
      else if side == 4 then Some([0, 4, 7, 3])
      else if side == 5 then Some([0, 3, 2, 1])
      else if side == 6 then Some([4, 5, 6, 7])
      else None
    else if topo == "TETRA" then
      if side == 1 then Some([0, 1, 3])
      else if side == 2 then Some([1, 2, 3])
      else if side == 3 then Some([0, 2, 3])
      else if side == 4 then Some([0, 1, 2])
      else None
    else if topo == "WEDGE" then
      if side == 1 then Some([0, 1, 3, 4])
      else if side == 2 then Some([1, 2, 4, 5])
      else if side == 3 then Some([0, 2, 3, 5])
      else if side == 4 then Some([0, 1, 2])
      else if side == 5 then Some([3, 4, 5])
      else None
    else if topo == "QUAD4" then
      if side == 1 then Some([0, 1])
      else if side == 2 then Some([1, 2])
      else if side == 3 then Some([2, 3])
      else if side == 4 then Some([3, 0])
      else None
    else None
  }

  /** The four sides of a quadrilateral are its edges taken round the cell:
    * side s joins local nodes s - 1 and s mod 4 (so side 2 is [1, 2]). */
  lemma QuadSidesAreEdges(s: int)
    requires 1 <= s <= 4
    ensures SideNodes("QUAD4", s) == Some([s - 1, s % 4])
  {
  }
}
