/** Port rows of the database and the allocator of proxy listening ports. */
module Ports {
  import opened Optional

  datatype PortType = Unspecified | SvcPort | ContainerPort

  /** The unique index of the ports table. */
  datatype Key = Key(number: nat, upstream: string, ingress: nat, kind: PortType)
  datatype Row = Row(name: string, status: nat, listening: nat, description: string)
  type Table = map<Key, Row>

  datatype DesiredPort = DesiredPort(number: nat, name: string, status: nat, listening: nat, kind: PortType,
                                     description: string)

  const MIN_PORT := 49152
  const MAX_PORT := 65535
  const ATTEMPTS := 10

  /** A result of rand.Intn(MAX_PORT - MIN_PORT). */
  type Draw = n: nat | n < MAX_PORT - MIN_PORT

  predicate InUse(rows: Table, port: nat) {
    exists k :: k in rows && rows[k].listening == port
  }

  datatype Allocation = Port(number: nat) | QueryError | Exhausted

  /** Attempt number used of the search for a free port. Every attempt asks for the same
      drawn number; fault tells which queries fail. */
  function Search(rows: Table, port: nat, fault: nat -> bool, used: nat): Allocation
    requires used <= ATTEMPTS
    decreases ATTEMPTS - used
  {
    if used == ATTEMPTS then Exhausted
    else if fault(used) then QueryError
    else if !InUse(rows, port) then Port(port)
    else Search(rows, port, fault, used + 1)
  }

  method ProxyPortAllocator(rows: Table, draw: Draw, fault: nat -> bool) returns (res: Allocation)
    ensures res == Search(rows, MIN_PORT + draw, fault, 0)
  {
    var allocationAttempts := ATTEMPTS;
    var port := MIN_PORT + draw;
    while allocationAttempts > 0
      invariant 0 <= allocationAttempts <= ATTEMPTS
      invariant Search(rows, port, fault, 0) == Search(rows, port, fault, ATTEMPTS - allocationAttempts)
    {
      if fault(ATTEMPTS - allocationAttempts) {
        return QueryError;
      }
      if !InUse(rows, port) {
        return Port(port);
      }
      allocationAttempts := allocationAttempts - 1;
    }
    return Exhausted;
  }

  /** The search succeeds exactly when its first query works and the drawn number is free:
      the other nine attempts can only turn a number in use into a query error. */
  lemma {:induction false} SearchOutcome(rows: Table, port: nat, fault: nat -> bool, used: nat)
    requires used < ATTEMPTS
    ensures Search(rows, port, fault, used) == Port(port) <==> !fault(used) && !InUse(rows, port)
    ensures Search(rows, port, fault, used).Port? ==> Search(rows, port, fault, used).number == port
    decreases ATTEMPTS - used
  {
    if InUse(rows, port) && !fault(used) && used + 1 < ATTEMPTS {
      SearchOutcome(rows, port, fault, used + 1);
    }
  }

  // ---------- saving ports ----------

  function Attempts(fault: nat -> bool): nat -> bool {
    (q: nat) => fault(q + 1)
  }

  /** The listening port a row is saved with, or None when a query fails or no port is found.
      Query 0 looks the row up, queries 1 to 10 are the attempts. */
  function Listening(rows: Table, k: Key, d: DesiredPort, draw: Draw, fault: nat -> bool): Option<nat> {
    if d.kind != ContainerPort then Some(d.listening)
    else if fault(0) then None
    else if k in rows && rows[k].listening != 0 then Some(rows[k].listening)
    else
      var a := Search(rows, MIN_PORT + draw, Attempts(fault), 0);
      if a.Port? then Some(a.number) else None
  }

  function KeyOf(d: DesiredPort, upstream: string, ingress: nat): Key {
    Key(d.number, upstream, ingress, d.kind)
  }

  /** Insert or update one row. Query 11 is the insert itself. */
  function SaveOne(rows: Table, k: Key, d: DesiredPort, draw: Draw, fault: nat -> bool): Option<Table> {
    var listening := Listening(rows, k, d, draw, fault);
    if listening.None? || fault(11) then None
    else Some(rows[k := Row(d.name, d.status, listening.value, d.description)])
  }

  /** The queries that fail, per desired port. */
  type Faults = nat -> (nat -> bool)

  datatype Saved = Saved(rows: Table, ok: bool)

  /** Rows are saved in order up to the first failure; what was saved stays. */
  function SaveFrom(rows: Table, upstream: string, ingress: nat, desired: seq<DesiredPort>, draws: seq<Draw>,
                    faults: Faults, i: nat): Saved
    requires |draws| == |desired| && i <= |desired|
    decreases |desired| - i
  {
    if i == |desired| then Saved(rows, true)
    else
      var one := SaveOne(rows, KeyOf(desired[i], upstream, ingress), desired[i], draws[i], faults(i));
      if one.None? then Saved(rows, false)
      else SaveFrom(one.value, upstream, ingress, desired, draws, faults, i + 1)
  }

  datatype SaveCall = SaveCall(upstream: string, ingress: nat, desired: seq<DesiredPort>, draws: seq<Draw>,
                               listFault: bool, faults: Faults)

  function Save(rows: Table, c: SaveCall): Saved
    requires |c.draws| == |c.desired|
  {
    if c.desired == [] then Saved(rows, true)
    else if c.listFault then Saved(rows, false)
    else SaveFrom(rows, c.upstream, c.ingress, c.desired, c.draws, c.faults, 0)
  }

  class PortRepository {
    var rows: Table

    /** The hook that runs before a row is created. */
    method AllocateProxyListenerPort(k: Key, d: DesiredPort, draw: Draw, fault: nat -> bool)
      returns (res: Option<nat>)
      ensures res == Listening(rows, k, d, draw, fault)
    {
      if d.kind != ContainerPort {
        return Some(d.listening);
      }
      if fault(0) {
        return None;
      }
      if k in rows && rows[k].listening != 0 {
        return Some(rows[k].listening);
      }
      var a := ProxyPortAllocator(rows, draw, Attempts(fault));
      return if a.Port? then Some(a.number) else None;
    }

    method SavePorts(c: SaveCall) returns (ok: bool)
      requires |c.draws| == |c.desired|
      modifies this
      ensures Saved(rows, ok) == Save(old(rows), c)
      ensures forall j :: ok && LastOf(c.desired, j) ==> Holds(rows, c.upstream, c.ingress, c.desired[j])
      ensures forall k :: k in old(rows) && !Desired(c.desired, c.upstream, c.ingress, k) ==>
                k in rows && rows[k] == old(rows)[k]
    {
      SaveTheorem(rows, c);
      if |c.desired| == 0 {
        return true;
      }
      // the comparison with the stored ports only reads
      if c.listFault {
        return false;
      }
      for i := 0 to |c.desired|
        invariant Save(old(rows), c) == SaveFrom(rows, c.upstream, c.ingress, c.desired, c.draws, c.faults, i)
      {
        var d := c.desired[i];
        var k := KeyOf(d, c.upstream, c.ingress);
        var listening := AllocateProxyListenerPort(k, d, c.draws[i], c.faults(i));
        if listening.None? || c.faults(i)(11) {
          return false;
        }
        rows := rows[k := Row(d.name, d.status, listening.value, d.description)];
      }
      return true;
    }
  }

  // ---------- the allocator invariant ----------

  predicate InRange(port: nat) {
    MIN_PORT <= port < MAX_PORT
  }

  /** Container rows listen in the dynamic range, each on a port of its own. */
  predicate Inv(rows: Table) {
    && (forall k :: k in rows && k.kind == ContainerPort ==> InRange(rows[k].listening))
    && (forall k1, k2 :: k1 in rows && k2 in rows && k1 != k2
                         && k1.kind == ContainerPort && k2.kind == ContainerPort ==>
          rows[k1].listening != rows[k2].listening)
  }

  /** Container rows stay and keep their listening port. */
  predicate Stable(rows: Table, rows': Table) {
    forall k :: k in rows && k.kind == ContainerPort ==> k in rows' && rows'[k].listening == rows[k].listening
  }

  lemma SaveOneKeeps(rows: Table, k: Key, d: DesiredPort, draw: Draw, fault: nat -> bool)
    requires Inv(rows) && k.kind == d.kind
    requires SaveOne(rows, k, d, draw, fault).Some?
    ensures Inv(SaveOne(rows, k, d, draw, fault).value)
    ensures Stable(rows, SaveOne(rows, k, d, draw, fault).value)
    ensures k in SaveOne(rows, k, d, draw, fault).value
  {
    SearchOutcome(rows, MIN_PORT + draw, Attempts(fault), 0);
  }

  lemma {:induction false} SaveFromKeeps(rows: Table, upstream: string, ingress: nat, desired: seq<DesiredPort>,
                                         draws: seq<Draw>, faults: Faults, i: nat)
    requires |draws| == |desired| && i <= |desired| && Inv(rows)
    ensures var s := SaveFrom(rows, upstream, ingress, desired, draws, faults, i);
            Inv(s.rows) && Stable(rows, s.rows)
    decreases |desired| - i
  {
    if i < |desired| {
      var k := KeyOf(desired[i], upstream, ingress);
      var one := SaveOne(rows, k, desired[i], draws[i], faults(i));
      if one.Some? {
        SaveOneKeeps(rows, k, desired[i], draws[i], faults(i));
        SaveFromKeeps(one.value, upstream, ingress, desired, draws, faults, i + 1);
      }
    }
  }

  function Run(rows: Table, calls: seq<SaveCall>): Table
    requires forall i :: 0 <= i < |calls| ==> |calls[i].draws| == |calls[i].desired|
    decreases |calls|
  {
    if calls == [] then rows else Run(Save(rows, calls[0]).rows, calls[1..])
  }

  /** The allocator invariant over every run of saves, failing ones included: container rows
      listen in the dynamic range, no two share a port, and a row's port never changes. */
  lemma {:induction false} RunKeeps(rows: Table, calls: seq<SaveCall>)
    requires forall i :: 0 <= i < |calls| ==> |calls[i].draws| == |calls[i].desired|
    requires Inv(rows)
    ensures Inv(Run(rows, calls)) && Stable(rows, Run(rows, calls))
    decreases |calls|
  {
    if calls != [] {
      var c := calls[0];
      SaveFromKeeps(rows, c.upstream, c.ingress, c.desired, c.draws, c.faults, 0);
      RunKeeps(Save(rows, c).rows, calls[1..]);
    }
  }

  /** Saving one container port fails exactly when a query fails or, for a port that is not
      stored yet, the drawn number is in use. */
  lemma SaveOneFails(rows: Table, k: Key, d: DesiredPort, draw: Draw, fault: nat -> bool)
    requires Inv(rows) && k.kind == d.kind == ContainerPort
    ensures SaveOne(rows, k, d, draw, fault).None? <==>
            fault(0) || fault(11) || (k !in rows && (fault(1) || InUse(rows, MIN_PORT + draw)))
  {
    SearchOutcome(rows, MIN_PORT + draw, Attempts(fault), 0);
  }

  // ---------- what a save stores ----------

  /** No later desired port has the number and type of port j. */
  predicate LastOf(desired: seq<DesiredPort>, j: int) {
    && 0 <= j < |desired|
    && forall l :: j < l < |desired| ==> desired[l].number != desired[j].number || desired[l].kind != desired[j].kind
  }

  /** The row of a desired port, under this upstream and ingress, with its name, status and
      description, and with its listening port unless it is a container port. */
  predicate Holds(rows: Table, upstream: string, ingress: nat, d: DesiredPort) {
    var k := Key(d.number, upstream, ingress, d.kind);
    && k in rows && rows[k].name == d.name && rows[k].status == d.status && rows[k].description == d.description
    && (d.kind != ContainerPort ==> rows[k].listening == d.listening)
  }

  /** The row k belongs to one of the desired ports. */
  predicate Desired(desired: seq<DesiredPort>, upstream: string, ingress: nat, k: Key) {
    exists j :: 0 <= j < |desired| && k == Key(desired[j].number, upstream, ingress, desired[j].kind)
  }

  /** One row: everything else stays, and the listening port of a container row is the stored
      one, or the drawn number when there is none yet. */
  lemma SaveOneRow(rows: Table, k: Key, d: DesiredPort, draw: Draw, fault: nat -> bool)
    requires SaveOne(rows, k, d, draw, fault).Some?
    ensures var rows' := SaveOne(rows, k, d, draw, fault).value;
            && rows'.Keys == rows.Keys + {k}
            && (forall l :: l in rows && l != k ==> rows'[l] == rows[l])
            && rows'[k].name == d.name && rows'[k].status == d.status && rows'[k].description == d.description
            && rows'[k].listening ==
               if d.kind != ContainerPort then d.listening
               else if k in rows && rows[k].listening != 0 then rows[k].listening
               else MIN_PORT + draw
  {
    SearchOutcome(rows, MIN_PORT + draw, Attempts(fault), 0);
  }

  /** A row that belongs to none of the ports from i on stays as it is. */
  lemma {:induction false} SaveFromOther(rows: Table, upstream: string, ingress: nat, desired: seq<DesiredPort>,
                                         draws: seq<Draw>, faults: Faults, i: nat, k: Key)
    requires |draws| == |desired| && i <= |desired| && k in rows
    requires forall j :: i <= j < |desired| ==> k != KeyOf(desired[j], upstream, ingress)
    ensures var s := SaveFrom(rows, upstream, ingress, desired, draws, faults, i);
            k in s.rows && s.rows[k] == rows[k]
    decreases |desired| - i
  {
    if i < |desired| {
      var one := SaveOne(rows, KeyOf(desired[i], upstream, ingress), desired[i], draws[i], faults(i));
      if one.Some? {
        SaveOneRow(rows, KeyOf(desired[i], upstream, ingress), desired[i], draws[i], faults(i));
        hide SaveOne;
        SaveFromOther(one.value, upstream, ingress, desired, draws, faults, i + 1, k);
      }
    }
  }

  lemma {:induction false} SaveFromHolds(rows: Table, upstream: string, ingress: nat, desired: seq<DesiredPort>,
                                         draws: seq<Draw>, faults: Faults, i: nat, j: nat)
    requires |draws| == |desired| && i <= j && LastOf(desired, j)
    requires SaveFrom(rows, upstream, ingress, desired, draws, faults, i).ok
    ensures Holds(SaveFrom(rows, upstream, ingress, desired, draws, faults, i).rows, upstream, ingress, desired[j])
    decreases |desired| - i
  {
    var k := KeyOf(desired[i], upstream, ingress);
    var one := SaveOne(rows, k, desired[i], draws[i], faults(i)).value;
    SaveOneRow(rows, k, desired[i], draws[i], faults(i));
    hide SaveOne;
    if i < j {
      SaveFromHolds(one, upstream, ingress, desired, draws, faults, i + 1, j);
    } else {
      SaveFromOther(one, upstream, ingress, desired, draws, faults, i + 1, k);
    }
  }

  /** A successful save stores every desired port; any save leaves the rows of other ports alone. */
  lemma SaveTheorem(rows: Table, c: SaveCall)
    requires |c.draws| == |c.desired|
    ensures Save(rows, c).ok ==>
              forall j :: LastOf(c.desired, j) ==> Holds(Save(rows, c).rows, c.upstream, c.ingress, c.desired[j])
    ensures forall k :: k in rows && !Desired(c.desired, c.upstream, c.ingress, k) ==>
              k in Save(rows, c).rows && Save(rows, c).rows[k] == rows[k]
  {
    if Save(rows, c).ok {
      forall j | LastOf(c.desired, j) ensures Holds(Save(rows, c).rows, c.upstream, c.ingress, c.desired[j]) {
        SaveFromHolds(rows, c.upstream, c.ingress, c.desired, c.draws, c.faults, 0, j);
      }
    }
    forall k | k in rows && !Desired(c.desired, c.upstream, c.ingress, k)
      ensures k in Save(rows, c).rows && Save(rows, c).rows[k] == rows[k]
    {
      SaveFromOther(rows, c.upstream, c.ingress, c.desired, c.draws, c.faults, 0, k);
    }
  }

  /** A save that fails has saved the ports before the one that failed, and no more. */
  lemma {:induction false} FailedSave(rows: Table, upstream: string, ingress: nat, desired: seq<DesiredPort>,
                                      draws: seq<Draw>, faults: Faults, i: nat) returns (m: nat)
    requires |draws| == |desired| && i <= |desired| && !SaveFrom(rows, upstream, ingress, desired, draws, faults, i).ok
    ensures i <= m < |desired|
    ensures var done := SaveFrom(rows, upstream, ingress, desired[..m], draws[..m], faults, i);
            && done == Saved(SaveFrom(rows, upstream, ingress, desired, draws, faults, i).rows, true)
            && SaveOne(done.rows, KeyOf(desired[m], upstream, ingress), desired[m], draws[m], faults(m)).None?
    decreases |desired| - i
  {
    hide SaveOne, KeyOf;
    var one := SaveOne(rows, KeyOf(desired[i], upstream, ingress), desired[i], draws[i], faults(i));
    if one.None? {
      m := i;
    } else {
      m := FailedSave(one.value, upstream, ingress, desired, draws, faults, i + 1);
      assert desired[..m][i] == desired[i] && draws[..m][i] == draws[i];
    }
  }
}
