/** The loops over a table of entries that the tracer and the simulators share. */
module TableSearch {
  import opened Recency
  import opened TimestampCache

  /** The loop of the lookup functions: the matching slot, or the slot to replace. */
  method Search(g: Geometry, table: array<Entry>, key: Key) returns (found: bool, slot: nat)
    requires ValidGeometry(g) && table.Length == g.size
    ensures Scan(table[..], key, SetOf(g, key.va), g.step, 0) == if found then Hit(slot) else Victim(slot)
  {
    hide SetOf, Visits;
    ghost var t := table[..];
    var mi: nat := 0;
    var mts := table[0].ts;
    var i: nat := SetOf(g, key.va);
    while i < g.size
      invariant mi < g.size && mts == table[mi].ts
      invariant Scan(t, key, SetOf(g, key.va), g.step, 0) == Scan(t, key, i, g.step, mi)
      decreases g.size - i
    {
      if table[i].va == key.va && table[i].asid == key.asid {
        return true, i;
      }
      if table[i].ts < mts {
        mts := table[i].ts;
        mi := i;
      }
      i := i + g.step;
    }
    return false, mi;
  }

  /** FLUSH_TLB. */
  method Clear(table: array<Entry>)
    modifies table
    ensures table[..] == seq(table.Length, _ => EMPTY)
  {
    for i := 0 to table.Length
      invariant forall j | 0 <= j < i :: table[j] == EMPTY
    {
      table[i] := EMPTY;
    }
  }
}
