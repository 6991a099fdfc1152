/** Units, machine widths and small facts that several components share. */
module Common {
  import opened Options

  const SECOND: int := 1_000_000_000
  const MILLISECOND: int := 1_000_000

  const UINT16: int := 0x1_0000
  const UINT32: int := 0x1_0000_0000

  type Byte = x: int | 0 <= x < 256

  ghost predicate NoDuplicates<T>(s: seq<T>) {
    forall i, j :: 0 <= i < j < |s| ==> s[i] != s[j]
  }

  lemma Inhabited(s: set<int>)
    ensures s == {} || exists x :: x in s
  {
    assert (forall x :: x !in s) ==> s == {};
  }

  /** coalesce(max(emit_at_time_since_gps_epoch), 0) over a queue's emission times */
  function MaxEmitAt(times: seq<Option<int>>): (max: int)
    ensures 0 <= max
    ensures forall i :: 0 <= i < |times| && times[i].Some? ==> times[i].value <= max
    ensures max == 0 || Some(max) in times
  {
    if times == [] then 0
    else
      var rest := MaxEmitAt(times[1..]);
      if times[0].Some? && times[0].value > rest then times[0].value else rest
  }
}
