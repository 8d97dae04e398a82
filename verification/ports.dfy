/** Port allocation for new accounts: `SSUser.clean`, which validates or
    assigns the port of an account being saved, and `SSUser.randomPord`,
    which picks an unused port. The ports of the existing accounts are
    passed in as a sequence; the random choices are parameters or
    nondeterministic picks. */
module Ports {
  import opened Common

  /** A port given explicitly must lie strictly between these bounds. */
  const LowerBound := 1024
  const UpperBound := 50000

  /** The first port of the pool `randomPord` searches. */
  const PoolStart := 1025

  predicate InRange(port: int) {
    LowerBound < port < UpperBound
  }

  /** No two accounts share a port. */
  predicate Distinct(ports: seq<int>) {
    forall i, j :: 0 <= i < j < |ports| ==> ports[i] != ports[j]
  }

  /** `max(port_list)`, or the port of the first user ordered by `-port`. */
  function MaxPort(ports: seq<int>): (m: int)
    requires |ports| > 0
    ensures m in ports
    ensures forall i :: 0 <= i < |ports| ==> ports[i] <= m
    decreases |ports|
  {
    if |ports| == 1 then ports[0]
    else
      var rest := MaxPort(ports[1..]);
      assert forall i :: 1 <= i < |ports| ==> ports[i] == ports[1..][i - 1];
      if ports[0] < rest then rest else ports[0]
  }

  /** The `ValidationError` `clean` raises for an explicit port out of range. */
  datatype PortError = PortOutOfRange

  /** `SSUser.clean`. `candidate` is the port field before cleaning, `None`
      when unset; since the source tests the field's truthiness, an explicit
      0 counts as unset too. `existing` holds the ports of the accounts
      already stored, `startPort` is `settings.START_PORT`, and `step` is the
      outcome of `choice([2, 3])`. */
  function Clean(candidate: Option<int>, existing: seq<int>, startPort: int, step: int): (r: Result<int, PortError>)
    requires step == 2 || step == 3
    ensures candidate.Some? && candidate.value != 0 ==>
      (r.Ok? <==> InRange(candidate.value)) && (r.Ok? ==> r.value == candidate.value)
    ensures (candidate.None? || candidate.value == 0) && |existing| == 0 ==> r == Ok(startPort)
    ensures (candidate.None? || candidate.value == 0) && |existing| > 0 ==>
      && r.Ok?
      && (r.value == MaxPort(existing) + 2 || r.value == MaxPort(existing) + 3)
      && forall i :: 0 <= i < |existing| ==> existing[i] < r.value
  {
    if candidate.Some? && candidate.value != 0 then
      if LowerBound < candidate.value < UpperBound then Ok(candidate.value) else Err(PortOutOfRange)
    else if |existing| > 0 then Ok(MaxPort(existing) + step)
    else Ok(startPort)
  }

  /** An automatically assigned port never collides: adding it to a table of
      distinct ports keeps them distinct. An explicit port is not checked
      against the table here; the column's unique constraint does that. */
  lemma AutoPortKeepsDistinct(existing: seq<int>, startPort: int, step: int)
    requires step == 2 || step == 3
    requires Distinct(existing)
    ensures Clean(None, existing, startPort, step).Ok?
    ensures Distinct(existing + [Clean(None, existing, startPort, step).value])
  {
    var port := Clean(None, existing, startPort, step).value;
    var all := existing + [port];
    forall i, j | 0 <= i < j < |all|
      ensures all[i] != all[j]
    {
      if j == |existing| {
        assert all[i] == existing[i];
      }
    }
  }

  /** An assigned port is not range-checked: after a port of 49999 the next
      account receives 50001 or 50002, outside the range an explicit port
      must lie in. */
  lemma AutoPortNotRangeChecked(step: int)
    requires step == 2 || step == 3
    ensures Clean(None, [49999], 1025, step).Ok?
    ensures !InRange(Clean(None, [49999], 1025, step).value)
  {
  }

  /** `SSUser.randomPord`: a port from `[1025, max]` that no account uses,
      or `max + 1` when every port of that range is taken (including when
      the range is empty). On an empty table `max()` of the empty list
      raises outside the `try`; that is `None` here. */
  method RandomPort(ports: seq<int>) returns (r: Option<int>)
    ensures r.None? <==> |ports| == 0
    ensures r.Some? ==> r.value !in ports
    ensures r.Some? && (exists q :: PoolStart <= q <= MaxPort(ports) && q !in ports) ==> PoolStart <= r.value <= MaxPort(ports)
    ensures r.Some? && (forall q :: PoolStart <= q <= MaxPort(ports) ==> q in ports) ==> r.value == MaxPort(ports) + 1
  {
    if |ports| == 0 {
      return None;
    }
    var top := ports[0];
    var i := 1;
    while i < |ports|
      invariant 1 <= i <= |ports|
      invariant top in ports[..i]
      invariant forall j :: 0 <= j < i ==> ports[j] <= top
    {
      if ports[i] > top {
        top := ports[i];
      }
      i := i + 1;
    }
    assert ports[..i] == ports;
    assert top == MaxPort(ports);
    var free := set q | PoolStart <= q <= top && q !in ports;
    if free != {} {
      var port :| port in free;
      r := Some(port);
    } else {
      forall q | PoolStart <= q <= top
        ensures q in ports
      {
        assert q !in free;
      }
      r := Some(top + 1);
    }
  }
}
