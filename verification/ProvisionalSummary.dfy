/** Provisional totals by project (frontend/src/features/inventory/ReservationsPage.tsx). */
module ProvisionalSummary {
  import opened Wrappers
  import opened Sums
  import opened StableSort
  import opened DatedQuantities
  import Decimal

  datatype Reservation = Reservation(status: string, projectId: Option<int>, projectName: Option<string>, quantity: int)

  datatype Order = Order(status: string, projectId: Option<int>, projectName: Option<string>, amount: int)

  datatype Row = Row(projectId: int, name: string, reserved: int, count: int, incoming: int)

  datatype Summary = Summary(quantity: int, count: int, dedicated: int, uncommitted: int, rows: seq<Row>)

  // ---------- what is counted for whom ----------

  /** A missing project and project 0 both count as none. */
  predicate HasProject(id: Option<int>) {
    id.Some? && id.value != 0
  }

  predicate Counts(r: Reservation) {
    r.status == "ACTIVE" && HasProject(r.projectId)
  }

  predicate Dedicated(o: Order) {
    o.status == "Ordered" && HasProject(o.projectId)
  }

  function ReservedFor(p: int): Reservation -> int {
    r => if Counts(r) && r.projectId.value == p then r.quantity else 0
  }

  function CountFor(p: int): Reservation -> int {
    r => if Counts(r) && r.projectId.value == p then 1 else 0
  }

  function IncomingFor(p: int): Order -> int {
    o => if Dedicated(o) && o.projectId.value == p then o.amount else 0
  }

  function ReservedQuantity(r: Reservation): int {
    if Counts(r) then r.quantity else 0
  }

  function ReservedCount(r: Reservation): int {
    if Counts(r) then 1 else 0
  }

  function DedicatedAmount(o: Order): int {
    if Dedicated(o) then o.amount else 0
  }

  function OrderedAmount(o: Order): int {
    if o.status == "Ordered" then o.amount else 0
  }

  function Reserved(row: Row): int { row.reserved }

  function Count(row: Row): int { row.count }

  function Incoming(row: Row): int { row.incoming }

  function Label(name: Option<string>, p: int): string {
    name.GetOr("(project #" + Decimal.OfInt(p) + ")")
  }

  /** The name in the first counted reservation of a project. */
  function NameInReservations(rs: seq<Reservation>, p: int): Option<string> {
    if rs == [] then None
    else
      var before, r := NameInReservations(rs[..|rs| - 1], p), rs[|rs| - 1];
      if before.None? && Counts(r) && r.projectId.value == p then Some(Label(r.projectName, p)) else before
  }

  /** The name in the first dedicated order of a project. */
  function NameInOrders(os: seq<Order>, p: int): Option<string> {
    if os == [] then None
    else
      var before, o := NameInOrders(os[..|os| - 1], p), os[|os| - 1];
      if before.None? && Dedicated(o) && o.projectId.value == p then Some(Label(o.projectName, p)) else before
  }

  /** The name of a project's row; None when nothing is counted for it. */
  function NameOf(rs: seq<Reservation>, os: seq<Order>, p: int): Option<string> {
    if NameInReservations(rs, p).Some? then NameInReservations(rs, p) else NameInOrders(os, p)
  }

  /** The row of a project: filtered sums. */
  function RowOf(rs: seq<Reservation>, os: seq<Order>, p: int, name: string): Row {
    Row(p, name, Total(ReservedFor(p), rs), Total(CountFor(p), rs), Total(IncomingFor(p), os))
  }

  /** A project without a name is called by its number. */
  lemma LabelReads(name: Option<string>, p: int)
    ensures name.Some? ==> Label(name, p) == name.value
    ensures name.None? ==>
              var l := Label(name, p);
              |l| > 11 && l[..10] == "(project #" && l[|l| - 1] == ')' && Decimal.ReadInt(l[10..|l| - 1]) == Some(p)
  {
    if name.None? {
      var l, digits := Label(name, p), Decimal.OfInt(p);
      Decimal.OfIntReads(p);
      Decimal.OfIntSign(p);
      assert l == "(project #" + digits + ")" && |"(project #"| == 10;
      assert l[10..|l| - 1] == digits;
    }
  }

  /** A row is for a project, never for none, and every counted reservation and dedicated order has one. */
  lemma RowsAreProjects(rs: seq<Reservation>, os: seq<Order>, rows: seq<Row>)
    requires Tallies(rs, os, rows)
    ensures forall i :: 0 <= i < |rows| ==> rows[i].projectId != 0
    ensures forall r :: r in rs && r.status == "ACTIVE" && r.projectId.Some? && r.projectId.value != 0 ==>
              exists i :: 0 <= i < |rows| && rows[i].projectId == r.projectId.value
    ensures forall o :: o in os && o.status == "Ordered" && o.projectId.Some? && o.projectId.value != 0 ==>
              exists i :: 0 <= i < |rows| && rows[i].projectId == o.projectId.value
  {
    forall i | 0 <= i < |rows| ensures rows[i].projectId != 0 {
      assert Right(rs, os, rows[i]);
      NoneForZero(rs, os);
    }
    forall r | r in rs && r.status == "ACTIVE" && r.projectId.Some? && r.projectId.value != 0
      ensures exists i :: 0 <= i < |rows| && rows[i].projectId == r.projectId.value
    {
      NamedByReservation(rs, r);
      assert IndexOf(rows, r.projectId.value) < |rows|;
    }
    forall o | o in os && o.status == "Ordered" && o.projectId.Some? && o.projectId.value != 0
      ensures exists i :: 0 <= i < |rows| && rows[i].projectId == o.projectId.value
    {
      NamedByOrder(os, o);
      assert NameOf(rs, os, o.projectId.value).Some?;
      assert IndexOf(rows, o.projectId.value) < |rows|;
    }
  }

  lemma {:induction false} NoneForZero(rs: seq<Reservation>, os: seq<Order>)
    ensures NameOf(rs, os, 0).None?
    decreases |rs| + |os|
  {
    if rs != [] {
      NoneForZero(rs[..|rs| - 1], os);
    } else if os != [] {
      NoneForZero(rs, os[..|os| - 1]);
    }
  }

  lemma {:induction false} NamedByReservation(rs: seq<Reservation>, r: Reservation)
    requires r in rs && r.status == "ACTIVE" && r.projectId.Some? && r.projectId.value != 0
    ensures NameInReservations(rs, r.projectId.value).Some?
  {
    if r in rs[..|rs| - 1] {
      NamedByReservation(rs[..|rs| - 1], r);
    }
  }

  lemma {:induction false} NamedByOrder(os: seq<Order>, o: Order)
    requires o in os && o.status == "Ordered" && o.projectId.Some? && o.projectId.value != 0
    ensures NameInOrders(os, o.projectId.value).Some?
  {
    if o in os[..|os| - 1] {
      NamedByOrder(os[..|os| - 1], o);
    }
  }

  // ---------- rows in insertion order ----------

  function IndexOf(rows: seq<Row>, p: int): (i: nat)
    ensures i <= |rows| && (i < |rows| ==> rows[i].projectId == p)
    ensures forall j :: 0 <= j < i ==> rows[j].projectId != p
  {
    if rows == [] || rows[0].projectId == p then 0 else 1 + IndexOf(rows[1..], p)
  }

  predicate DistinctIds(rows: seq<Row>) {
    forall i, j :: 0 <= i < j < |rows| ==> rows[i].projectId != rows[j].projectId
  }

  /** A row has its project's name and sums. */
  ghost predicate Right(rs: seq<Reservation>, os: seq<Order>, row: Row) {
    && NameOf(rs, os, row.projectId).Some?
    && row == RowOf(rs, os, row.projectId, NameOf(rs, os, row.projectId).value)
  }

  /** There is one row for each project that something is counted for, with its name and its sums. */
  ghost predicate Tallies(rs: seq<Reservation>, os: seq<Order>, rows: seq<Row>) {
    && DistinctIds(rows)
    && (forall i :: 0 <= i < |rows| ==> Right(rs, os, rows[i]))
    && (forall p :: NameOf(rs, os, p).Some? ==> IndexOf(rows, p) < |rows|)
  }

  lemma NextReservation(rs: seq<Reservation>, r: Reservation, p: int)
    ensures var more := rs + [r];
            && Total(ReservedFor(p), more) == Total(ReservedFor(p), rs) + ReservedFor(p)(r)
            && Total(CountFor(p), more) == Total(CountFor(p), rs) + CountFor(p)(r)
            && NameInReservations(more, p) ==
               if NameInReservations(rs, p).None? && Counts(r) && r.projectId.value == p
               then Some(Label(r.projectName, p)) else NameInReservations(rs, p)
  {
    assert (rs + [r])[..|rs|] == rs;
  }

  lemma NextOrder(os: seq<Order>, o: Order, p: int)
    ensures var more := os + [o];
            && Total(IncomingFor(p), more) == Total(IncomingFor(p), os) + IncomingFor(p)(o)
            && NameInOrders(more, p) ==
               if NameInOrders(os, p).None? && Dedicated(o) && o.projectId.value == p
               then Some(Label(o.projectName, p)) else NameInOrders(os, p)
  {
    assert (os + [o])[..|os|] == os;
  }

  /** The rows after a project's own row has been replaced, or appended if it had none. */
  function Updated(rows: seq<Row>, row: Row): (r: seq<Row>)
  {
    var i := IndexOf(rows, row.projectId);
    if i < |rows| then rows[i := row] else rows + [row]
  }

  lemma UpdatedRows(rows: seq<Row>, row: Row)
    requires DistinctIds(rows)
    ensures var r := Updated(rows, row);
            && DistinctIds(r)
            && (forall i :: 0 <= i < |r| ==> r[i] == row || (r[i] in rows && r[i].projectId != row.projectId))
            && (forall p :: IndexOf(r, p) < |r| <==> IndexOf(rows, p) < |rows| || p == row.projectId)
  {
    var r, k := Updated(rows, row), IndexOf(rows, row.projectId);
    forall p ensures IndexOf(r, p) < |r| <==> IndexOf(rows, p) < |rows| || p == row.projectId {
      if IndexOf(rows, p) < |rows| && p != row.projectId {
        assert r[IndexOf(rows, p)].projectId == p;
      }
      if p == row.projectId {
        assert r[k].projectId == p;
      }
      if IndexOf(r, p) < |r| && p != row.projectId {
        assert rows[IndexOf(r, p)].projectId == p;
      }
    }
    forall i | 0 <= i < |r| ensures r[i] == row || (r[i] in rows && r[i].projectId != row.projectId) {
      if i != k {
        assert r[i] == rows[i];
      }
    }
  }

  /** A row that changes by some amounts changes the sums over all rows by as much. */
  lemma UpdatedTotals(f: Row -> int, rows: seq<Row>, row: Row)
    ensures var i := IndexOf(rows, row.projectId);
            Total(f, Updated(rows, row)) == Total(f, rows) + f(row) - if i < |rows| then f(rows[i]) else 0
  {
    var i := IndexOf(rows, row.projectId);
    if i < |rows| {
      TotalUpdate(f, rows, i, row);
    } else {
      assert (rows + [row])[..|rows|] == rows;
    }
  }

  lemma UpdatedTallies(rs: seq<Reservation>, os: seq<Order>, rows: seq<Row>, row: Row)
    requires DistinctIds(rows) && Right(rs, os, row)
    requires forall i :: 0 <= i < |rows| && rows[i].projectId != row.projectId ==> Right(rs, os, rows[i])
    requires forall p :: NameOf(rs, os, p).Some? ==> p == row.projectId || IndexOf(rows, p) < |rows|
    ensures Tallies(rs, os, Updated(rows, row))
  {
    UpdatedRows(rows, row);
    var more := Updated(rows, row);
    forall j | 0 <= j < |more| ensures Right(rs, os, more[j]) {
      if more[j] != row {
        var i :| 0 <= i < |rows| && rows[i] == more[j];
      }
    }
  }

  /** A project's row so far, or an empty one. */
  function Existing(rows: seq<Row>, p: int, name: Option<string>): Row {
    var i := IndexOf(rows, p);
    if i < |rows| then rows[i] else Row(p, Label(name, p), 0, 0, 0)
  }

  function ReservationRow(rows: seq<Row>, r: Reservation): Row
    requires Counts(r)
  {
    var was := Existing(rows, r.projectId.value, r.projectName);
    was.(reserved := was.reserved + r.quantity, count := was.count + 1)
  }

  function OrderRow(rows: seq<Row>, o: Order): Row
    requires Dedicated(o)
  {
    var was := Existing(rows, o.projectId.value, o.projectName);
    was.(incoming := was.incoming + o.amount)
  }

  lemma OtherReservationRow(rs: seq<Reservation>, r: Reservation, row: Row)
    requires Right(rs, [], row) && !(Counts(r) && r.projectId.value == row.projectId)
    ensures Right(rs + [r], [], row)
  {
    NextReservation(rs, r, row.projectId);
  }

  lemma ReservationRowRight(rs: seq<Reservation>, r: Reservation, rows: seq<Row>)
    requires Tallies(rs, [], rows) && Counts(r)
    ensures Right(rs + [r], [], ReservationRow(rows, r))
  {
    var p := r.projectId.value;
    NextReservation(rs, r, p);
    if IndexOf(rows, p) == |rows| {
      NothingReserved(rs, p);
    } else {
      assert Right(rs, [], rows[IndexOf(rows, p)]);
    }
  }

  lemma TallyReservation(rs: seq<Reservation>, r: Reservation, rows: seq<Row>)
    requires Tallies(rs, [], rows) && Counts(r)
    ensures Tallies(rs + [r], [], Updated(rows, ReservationRow(rows, r)))
  {
    ReservationRowRight(rs, r, rows);
    forall i | 0 <= i < |rows| && rows[i].projectId != r.projectId.value ensures Right(rs + [r], [], rows[i]) {
      OtherReservationRow(rs, r, rows[i]);
    }
    forall p | NameOf(rs + [r], [], p).Some? ensures p == r.projectId.value || IndexOf(rows, p) < |rows| {
      NextReservation(rs, r, p);
    }
    UpdatedTallies(rs + [r], [], rows, ReservationRow(rows, r));
  }

  /** A project without a name has nothing counted. */
  lemma {:induction false} NothingReserved(rs: seq<Reservation>, p: int)
    requires NameInReservations(rs, p).None?
    ensures Total(ReservedFor(p), rs) == 0 && Total(CountFor(p), rs) == 0
  {
    if rs != [] {
      NothingReserved(rs[..|rs| - 1], p);
    }
  }

  lemma {:induction false} NothingIncoming(os: seq<Order>, p: int)
    requires NameInOrders(os, p).None?
    ensures Total(IncomingFor(p), os) == 0
  {
    if os != [] {
      NothingIncoming(os[..|os| - 1], p);
    }
  }

  lemma OtherOrderRow(rs: seq<Reservation>, os: seq<Order>, o: Order, row: Row)
    requires Right(rs, os, row) && !(Dedicated(o) && o.projectId.value == row.projectId)
    ensures Right(rs, os + [o], row)
  {
    NextOrder(os, o, row.projectId);
  }

  lemma OrderRowRight(rs: seq<Reservation>, os: seq<Order>, o: Order, rows: seq<Row>)
    requires Tallies(rs, os, rows) && Dedicated(o)
    ensures Right(rs, os + [o], OrderRow(rows, o))
  {
    var p := o.projectId.value;
    NextOrder(os, o, p);
    if IndexOf(rows, p) == |rows| {
      NothingReserved(rs, p);
      NothingIncoming(os, p);
    } else {
      assert Right(rs, os, rows[IndexOf(rows, p)]);
    }
  }

  lemma TallyOrder(rs: seq<Reservation>, os: seq<Order>, o: Order, rows: seq<Row>)
    requires Tallies(rs, os, rows) && Dedicated(o)
    ensures Tallies(rs, os + [o], Updated(rows, OrderRow(rows, o)))
  {
    OrderRowRight(rs, os, o, rows);
    forall i | 0 <= i < |rows| && rows[i].projectId != o.projectId.value ensures Right(rs, os + [o], rows[i]) {
      OtherOrderRow(rs, os, o, rows[i]);
    }
    forall p | NameOf(rs, os + [o], p).Some? ensures p == o.projectId.value || IndexOf(rows, p) < |rows| {
      NextOrder(os, o, p);
    }
    UpdatedTallies(rs, os + [o], rows, OrderRow(rows, o));
  }

  lemma SkipReservation(rs: seq<Reservation>, r: Reservation, rows: seq<Row>)
    requires Tallies(rs, [], rows) && !Counts(r)
    ensures Tallies(rs + [r], [], rows)
  {
    forall i | 0 <= i < |rows| ensures Right(rs + [r], [], rows[i]) {
      OtherReservationRow(rs, r, rows[i]);
    }
    forall p ensures NameOf(rs + [r], [], p) == NameOf(rs, [], p) {
      NextReservation(rs, r, p);
    }
  }

  lemma SkipOrder(rs: seq<Reservation>, os: seq<Order>, o: Order, rows: seq<Row>)
    requires Tallies(rs, os, rows) && !Dedicated(o)
    ensures Tallies(rs, os + [o], rows)
  {
    forall i | 0 <= i < |rows| ensures Right(rs, os + [o], rows[i]) {
      OtherOrderRow(rs, os, o, rows[i]);
    }
    forall p ensures NameOf(rs, os + [o], p) == NameOf(rs, os, p) {
      NextOrder(os, o, p);
    }
  }

  /** How one row's update moves the three sums over all rows. */
  lemma ReservationTotals(rows: seq<Row>, r: Reservation)
    requires Counts(r)
    ensures var more := Updated(rows, ReservationRow(rows, r));
            && Total(Reserved, more) == Total(Reserved, rows) + r.quantity
            && Total(Count, more) == Total(Count, rows) + 1
            && Total(Incoming, more) == Total(Incoming, rows)
  {
    var row := ReservationRow(rows, r);
    UpdatedTotals(Reserved, rows, row);
    UpdatedTotals(Count, rows, row);
    UpdatedTotals(Incoming, rows, row);
  }

  lemma OrderTotals(rows: seq<Row>, o: Order)
    requires Dedicated(o)
    ensures var more := Updated(rows, OrderRow(rows, o));
            && Total(Reserved, more) == Total(Reserved, rows)
            && Total(Count, more) == Total(Count, rows)
            && Total(Incoming, more) == Total(Incoming, rows) + o.amount
  {
    var row := OrderRow(rows, o);
    UpdatedTotals(Reserved, rows, row);
    UpdatedTotals(Count, rows, row);
    UpdatedTotals(Incoming, rows, row);
  }

  // ---------- the computation ----------

  function ByName(cmp: (string, string) -> int): (Row, Row) -> int {
    (a: Row, b: Row) => cmp(a.name, b.name)
  }

  lemma SortedByName(cmp: (string, string) -> int, rows: seq<Row>)
    requires Collation(cmp)
    ensures var s := Sort(ByName(cmp), rows); forall i, j :: 0 <= i < j < |s| ==> cmp(s[i].name, s[j].name) <= 0
  {
    forall a, b ensures ByName(cmp)(a, b) <= 0 || ByName(cmp)(b, a) <= 0 {
      assert cmp(a.name, b.name) < 0 <==> cmp(b.name, a.name) > 0;
    }
    forall a, b, c | ByName(cmp)(a, b) <= 0 && ByName(cmp)(b, c) <= 0 ensures ByName(cmp)(a, c) <= 0 {
      assert cmp(a.name, b.name) <= 0 && cmp(b.name, c.name) <= 0;
    }
    SortSorts(ByName(cmp), rows);
    var s := Sort(ByName(cmp), rows);
    forall i, j | 0 <= i < j < |s| ensures cmp(s[i].name, s[j].name) <= 0 {
      assert ByName(cmp)(s[i], s[j]) <= 0;
    }
  }

  ghost predicate SameRows(a: seq<Row>, b: seq<Row>) {
    multiset(a) == multiset(b)
  }

  /** The state of the first loop: rows, and the headline quantity and count. */
  ghost predicate ReservationsTallied(rs: seq<Reservation>, rows: seq<Row>, quantity: int, count: int) {
    && Tallies(rs, [], rows)
    && quantity == Total(ReservedQuantity, rs) == Total(Reserved, rows)
    && count == Total(ReservedCount, rs) == Total(Count, rows)
    && Total(Incoming, rows) == 0
  }

  lemma NextTallied(rs: seq<Reservation>, r: Reservation, rows: seq<Row>, quantity: int, count: int)
    requires ReservationsTallied(rs, rows, quantity, count)
    ensures if Counts(r)
            then ReservationsTallied(rs + [r], Updated(rows, ReservationRow(rows, r)), quantity + r.quantity, count + 1)
            else ReservationsTallied(rs + [r], rows, quantity, count)
  {
    assert (rs + [r])[..|rs|] == rs;
    if Counts(r) {
      TallyReservation(rs, r, rows);
      ReservationTotals(rows, r);
    } else {
      SkipReservation(rs, r, rows);
    }
  }

  lemma StartTallied(rs: seq<Reservation>)
    ensures ReservationsTallied(rs[..0], [], 0, 0)
  {
    assert rs[..0] == [];
  }

  lemma NextTalliedAt(rs: seq<Reservation>, k: nat, rows: seq<Row>, quantity: int, count: int)
    requires k < |rs| && ReservationsTallied(rs[..k], rows, quantity, count)
    ensures Counts(rs[k]) ==>
              ReservationsTallied(rs[..k + 1], Updated(rows, ReservationRow(rows, rs[k])), quantity + rs[k].quantity, count + 1)
    ensures !Counts(rs[k]) ==> ReservationsTallied(rs[..k + 1], rows, quantity, count)
  {
    assert rs[..k + 1] == rs[..k] + [rs[k]];
    NextTallied(rs[..k], rs[k], rows, quantity, count);
  }

  /** One turn of the first loop. */
  method TallyOne(rows: seq<Row>, quantity: int, count: int, r: Reservation) returns (rows': seq<Row>, quantity': int, count': int)
    ensures rows' == if Counts(r) then Updated(rows, ReservationRow(rows, r)) else rows
    ensures quantity' == if Counts(r) then quantity + r.quantity else quantity
    ensures count' == if Counts(r) then count + 1 else count
  {
    if !Counts(r) {
      return rows, quantity, count;
    }
    var existing := Existing(rows, r.projectId.value, r.projectName);
    existing := existing.(reserved := existing.reserved + r.quantity);
    existing := existing.(count := existing.count + 1);
    return Updated(rows, existing), quantity + r.quantity, count + 1;
  }

  /** The first loop: active reservations of a project. */
  method TallyReservations(rs: seq<Reservation>) returns (rows: seq<Row>, quantity: int, count: int)
    ensures ReservationsTallied(rs, rows, quantity, count)
  {
    rows, quantity, count := [], 0, 0;
    StartTallied(rs);
    for k := 0 to |rs|
      invariant ReservationsTallied(rs[..k], rows, quantity, count)
    {
      NextTalliedAt(rs, k, rows, quantity, count);
      rows, quantity, count := TallyOne(rows, quantity, count, rs[k]);
    }
    assert rs[..|rs|] == rs;
  }

  /** The state of the second loop, over the rows of the first. */
  ghost predicate OrdersTallied(rs: seq<Reservation>, os: seq<Order>, tallied: seq<Row>, rows: seq<Row>,
                                dedicated: int, uncommitted: int) {
    && Tallies(rs, os, rows)
    && Total(Reserved, rows) == Total(Reserved, tallied) && Total(Count, rows) == Total(Count, tallied)
    && dedicated == Total(DedicatedAmount, os) == Total(Incoming, rows)
    && dedicated + uncommitted == Total(OrderedAmount, os)
  }

  lemma NextOrderTallied(rs: seq<Reservation>, os: seq<Order>, o: Order, tallied: seq<Row>, rows: seq<Row>,
                         dedicated: int, uncommitted: int)
    requires OrdersTallied(rs, os, tallied, rows, dedicated, uncommitted)
    ensures if Dedicated(o)
            then OrdersTallied(rs, os + [o], tallied, Updated(rows, OrderRow(rows, o)), dedicated + o.amount, uncommitted)
            else OrdersTallied(rs, os + [o], tallied, rows, dedicated,
                               if o.status == "Ordered" then uncommitted + o.amount else uncommitted)
  {
    assert (os + [o])[..|os|] == os;
    if Dedicated(o) {
      TallyOrder(rs, os, o, rows);
      OrderTotals(rows, o);
    } else {
      SkipOrder(rs, os, o, rows);
    }
  }

  lemma StartOrdersTallied(rs: seq<Reservation>, os: seq<Order>, tallied: seq<Row>)
    requires Tallies(rs, [], tallied) && Total(Incoming, tallied) == 0
    ensures OrdersTallied(rs, os[..0], tallied, tallied, 0, 0)
  {
    assert os[..0] == [];
  }

  lemma NextOrderTalliedAt(rs: seq<Reservation>, os: seq<Order>, k: nat, tallied: seq<Row>, rows: seq<Row>,
                           dedicated: int, uncommitted: int)
    requires k < |os| && OrdersTallied(rs, os[..k], tallied, rows, dedicated, uncommitted)
    ensures Dedicated(os[k]) ==>
              OrdersTallied(rs, os[..k + 1], tallied, Updated(rows, OrderRow(rows, os[k])), dedicated + os[k].amount, uncommitted)
    ensures !Dedicated(os[k]) ==>
              OrdersTallied(rs, os[..k + 1], tallied, rows, dedicated,
                            if os[k].status == "Ordered" then uncommitted + os[k].amount else uncommitted)
  {
    assert os[..k + 1] == os[..k] + [os[k]];
    NextOrderTallied(rs, os[..k], os[k], tallied, rows, dedicated, uncommitted);
  }

  /** One turn of the second loop. */
  method TallyOneOrder(rows: seq<Row>, dedicated: int, uncommitted: int, o: Order)
    returns (rows': seq<Row>, dedicated': int, uncommitted': int)
    ensures rows' == if Dedicated(o) then Updated(rows, OrderRow(rows, o)) else rows
    ensures dedicated' == if Dedicated(o) then dedicated + o.amount else dedicated
    ensures uncommitted' == if o.status == "Ordered" && !Dedicated(o) then uncommitted + o.amount else uncommitted
  {
    if o.status != "Ordered" {
      return rows, dedicated, uncommitted;
    }
    if HasProject(o.projectId) {
      var existing := Existing(rows, o.projectId.value, o.projectName);
      existing := existing.(incoming := existing.incoming + o.amount);
      return Updated(rows, existing), dedicated + o.amount, uncommitted;
    }
    return rows, dedicated, uncommitted + o.amount;
  }

  /** The second loop: ordered lines, dedicated to a project or not. */
  method TallyOrders(ghost rs: seq<Reservation>, os: seq<Order>, tallied: seq<Row>)
    returns (rows: seq<Row>, dedicated: int, uncommitted: int)
    requires Tallies(rs, [], tallied) && Total(Incoming, tallied) == 0
    ensures OrdersTallied(rs, os, tallied, rows, dedicated, uncommitted)
  {
    rows, dedicated, uncommitted := tallied, 0, 0;
    StartOrdersTallied(rs, os, tallied);
    for k := 0 to |os|
      invariant OrdersTallied(rs, os[..k], tallied, rows, dedicated, uncommitted)
    {
      NextOrderTalliedAt(rs, os, k, tallied, rows, dedicated, uncommitted);
      rows, dedicated, uncommitted := TallyOneOrder(rows, dedicated, uncommitted, os[k]);
    }
    assert os[..|os|] == os;
  }

  /**
   * Each project's row is the filtered sum over reservations and orders, and quantities are conserved: the
   * rows add up to the headline figures, and dedicated and uncommitted to everything ordered.
   */
  method Summarize(cmp: (string, string) -> int, rs: seq<Reservation>, os: seq<Order>) returns (s: Summary)
    ensures exists rows :: Tallies(rs, os, rows) && s.rows == Sort(ByName(cmp), rows) && SameRows(s.rows, rows)
    ensures s.quantity == Total(ReservedQuantity, rs) == Total(Reserved, s.rows)
    ensures s.count == Total(ReservedCount, rs) == Total(Count, s.rows)
    ensures s.dedicated == Total(DedicatedAmount, os) == Total(Incoming, s.rows)
    ensures s.dedicated + s.uncommitted == Total(OrderedAmount, os)
    ensures Collation(cmp) ==> forall i, j :: 0 <= i < j < |s.rows| ==> cmp(s.rows[i].name, s.rows[j].name) <= 0
  {
    var tallied, quantity, count := TallyReservations(rs);
    var rows, dedicated, uncommitted := TallyOrders(rs, os, tallied);
    var ordered := Sort(ByName(cmp), rows);
    SortPermutes(ByName(cmp), rows);
    TotalSameBag(Reserved, ordered, rows);
    TotalSameBag(Count, ordered, rows);
    TotalSameBag(Incoming, ordered, rows);
    assert SameRows(ordered, rows);
    if Collation(cmp) {
      SortedByName(cmp, rows);
    }
    return Summary(quantity, count, dedicated, uncommitted, ordered);
  }
}
