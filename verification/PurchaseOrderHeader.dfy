/** Migration 010: purchase order headers (backend/alembic/versions/010_purchase_orders_header.py). */
module PurchaseOrderHeader {
  import opened Wrappers

  type OrderId = nat
  type QuotationId = nat
  type HeaderId = nat

  datatype Header = Header(supplier: int, url: Option<string>)

  /**
   * The tables the migration touches. quotations gives each quotation's supplier. A column or table that
   * does not exist is None; a SQL null is None inside.
   */
  datatype Tables = Tables(
    quotations: map<QuotationId, int>,
    orders: map<OrderId, Option<QuotationId>>,
    orderUrls: Option<map<OrderId, Option<string>>>,
    orderHeaders: Option<map<OrderId, Option<HeaderId>>>,
    headers: Option<map<HeaderId, Header>>)

  /** The schema before the migration, with the foreign key from orders to quotations. */
  ghost predicate Before(t: Tables) {
    && t.orderUrls.Some? && t.orderUrls.value.Keys == t.orders.Keys
    && t.orderHeaders.None? && t.headers.None?
    && (forall o :: o in t.orders && t.orders[o].Some? ==> t.orders[o].value in t.quotations)
  }

  predicate EveryOrderQuoted(t: Tables) {
    forall o :: o in t.orders ==> t.orders[o].Some?
  }

  /** Supplier and URL of an order, by its quotation. */
  function HeaderOf(t: Tables, o: OrderId): Header
    requires o in t.orders && t.orders[o].Some? && t.orders[o].value in t.quotations
    requires t.orderUrls.Some? && o in t.orderUrls.value
  {
    Header(t.quotations[t.orders[o].value], t.orderUrls.value[o])
  }

  /** SELECT DISTINCT over the inner join: one row per supplier and URL, nulls counting as equal. */
  function DistinctHeaders(t: Tables): set<Header>
    requires Before(t)
  {
    set o | o in t.orders && t.orders[o].Some? :: HeaderOf(t, o)
  }

  /** A header row was inserted for each of them. */
  ghost predicate RowsFor(headers: map<HeaderId, Header>, wanted: set<Header>) {
    && headers.Values == wanted
    && (forall h, k :: h in headers && k in headers && headers[h] == headers[k] ==> h == k)
  }

  /** The relation between the tables before and after a successful upgrade. */
  ghost predicate Upgraded(t: Tables, u: Tables)
    requires Before(t)
  {
    && u.quotations == t.quotations && u.orders == t.orders && u.orderUrls.None?
    && u.orderHeaders.Some? && u.headers.Some?
    && EveryOrderQuoted(t)
    && RowsFor(u.headers.value, DistinctHeaders(t))
    && u.orderHeaders.value.Keys == t.orders.Keys
    && (forall o :: o in t.orders ==>
          && u.orderHeaders.value[o].Some? && u.orderHeaders.value[o].value in u.headers.value
          && u.headers.value[u.orderHeaders.value[o].value] == HeaderOf(t, o))
  }

  /** The tables after the downgrade: each order takes its header's URL back. */
  function Downgraded(u: Tables): Tables
    requires u.orderHeaders.Some? && u.headers.Some?
  {
    Tables(
      u.quotations, u.orders,
      Some(map o | o in u.orders ::
             if o in u.orderHeaders.value && u.orderHeaders.value[o].Some? && u.orderHeaders.value[o].value in u.headers.value
             then u.headers.value[u.orderHeaders.value[o].value].url else None),
      None, None)
  }

  // ---------- properties of the relation ----------

  /** Two orders share a header exactly when supplier and URL agree, nulls being equal. */
  lemma SharedHeaderExactly(t: Tables, u: Tables, a: OrderId, b: OrderId)
    requires Before(t) && Upgraded(t, u) && a in t.orders && b in t.orders
    ensures u.orderHeaders.value[a] == u.orderHeaders.value[b] <==> HeaderOf(t, a) == HeaderOf(t, b)
  {
  }

  /** No header row is left without an order. */
  lemma EveryHeaderUsed(t: Tables, u: Tables, h: HeaderId)
    requires Before(t) && Upgraded(t, u) && h in u.headers.value
    ensures exists o :: o in t.orders && u.orderHeaders.value[o] == Some(h)
  {
    assert u.headers.value[h] in DistinctHeaders(t);
    var o :| o in t.orders && t.orders[o].Some? && HeaderOf(t, o) == u.headers.value[h];
    assert u.orderHeaders.value[o] == Some(h);
  }

  /** The downgrade restores the tables as they were. */
  lemma DowngradeInvertsUpgrade(t: Tables, u: Tables)
    requires Before(t) && Upgraded(t, u)
    ensures Downgraded(u) == t
  {
    var d := Downgraded(u);
    forall o | o in t.orders ensures d.orderUrls.value[o] == t.orderUrls.value[o] {
      assert u.headers.value[u.orderHeaders.value[o].value] == HeaderOf(t, o);
    }
    assert d.orderUrls.value == t.orderUrls.value;
  }

  /**
   * Downgrading any database with the new schema and upgrading it again keeps which orders share a header if and
   * only if no two headers in use of one supplier both lack a URL: those are merged.
   */
  lemma UpgradeAgainExactly(u: Tables, v: Tables)
    requires Normalised(u)
    requires Before(Downgraded(u)) && Upgraded(Downgraded(u), v)
    ensures SharingKept(u, v) <==> NoTwinsWithoutUrl(u)
  {
    forall a, b | a in u.orders && b in u.orders
      ensures v.orderHeaders.value[a] == v.orderHeaders.value[b] <==> RowOf(u, a) == RowOf(u, b)
    {
      SharedHeaderExactly(Downgraded(u), v, a, b);
      assert HeaderOf(Downgraded(u), a) == RowOf(u, a) && HeaderOf(Downgraded(u), b) == RowOf(u, b);
    }
    RowsApartExactly(u);
  }

  /** Different headers in use have different rows. */
  ghost predicate RowsApart(u: Tables)
    requires Normalised(u)
  {
    forall a, b :: a in u.orders && b in u.orders && RowOf(u, a) == RowOf(u, b) ==>
      u.orderHeaders.value[a] == u.orderHeaders.value[b]
  }

  /** Equal rows under different headers have no URL, by the unique constraint. */
  lemma RowsApartExactly(u: Tables)
    requires Normalised(u)
    ensures RowsApart(u) <==> NoTwinsWithoutUrl(u)
  {
  }

  /** The same orders share a header before and after. */
  ghost predicate SharingKept(u: Tables, v: Tables)
    requires Normalised(u) && v.orderHeaders.Some? && v.orderHeaders.value.Keys == u.orders.Keys
  {
    forall a, b :: a in u.orders && b in u.orders ==>
      (u.orderHeaders.value[a] == u.orderHeaders.value[b] <==> v.orderHeaders.value[a] == v.orderHeaders.value[b])
  }

  /** Headers in use that have one supplier and no URL are one header. */
  ghost predicate NoTwinsWithoutUrl(u: Tables)
    requires Normalised(u)
  {
    forall a, b :: a in u.orders && b in u.orders && RowOf(u, a).supplier == RowOf(u, b).supplier
                   && RowOf(u, a).url.None? && RowOf(u, b).url.None? ==>
      u.orderHeaders.value[a] == u.orderHeaders.value[b]
  }

  /**
   * The upgraded schema in use: every order has a quotation and a header of the quotation's supplier, and
   * supplier and URL are unique among the headers, nulls counting as different.
   */
  ghost predicate Normalised(u: Tables) {
    && u.orderUrls.None?
    && u.orderHeaders.Some? && u.headers.Some? && u.orderHeaders.value.Keys == u.orders.Keys
    && UniqueUrls(u.headers.value)
    && forall o :: o in u.orders ==>
         && u.orders[o].Some? && u.orders[o].value in u.quotations
         && u.orderHeaders.value[o].Some? && u.orderHeaders.value[o].value in u.headers.value
         && u.headers.value[u.orderHeaders.value[o].value].supplier == u.quotations[u.orders[o].value]
  }

  predicate UniqueUrls(headers: map<HeaderId, Header>) {
    forall h, k :: h in headers && k in headers && headers[h] == headers[k] && headers[h].url.Some? ==> h == k
  }

  ghost function RowOf(u: Tables, o: OrderId): Header
    requires Normalised(u) && o in u.orders
  {
    u.headers.value[u.orderHeaders.value[o].value]
  }

  /** An upgraded database is of that kind, and it can be upgraded again. */
  lemma UpgradedIsNormalised(t: Tables, u: Tables)
    requires Before(t) && Upgraded(t, u)
    ensures Normalised(u) && NoTwinsWithoutUrl(u)
  {
    forall a, b | a in t.orders && b in t.orders && HeaderOf(t, a) == HeaderOf(t, b)
      ensures u.orderHeaders.value[a] == u.orderHeaders.value[b]
    {
      SharedHeaderExactly(t, u, a, b);
    }
  }

  lemma NormalisedGoesBack(u: Tables)
    requires Normalised(u)
    ensures Before(Downgraded(u)) && EveryOrderQuoted(Downgraded(u))
  {
  }

  /** Two orders with a header each, both of supplier 7 and without URL: the constraint holds, they are merged. */
  lemma TwinsAreMerged(v: Tables)
    requires Before(Downgraded(Twins())) && Upgraded(Downgraded(Twins()), v)
    ensures Twins().orderHeaders.value[1] != Twins().orderHeaders.value[2] && v.orderHeaders.value[1] == v.orderHeaders.value[2]
  {
    SharedHeaderExactly(Downgraded(Twins()), v, 1, 2);
  }

  lemma TwinsAreNormalised()
    ensures Normalised(Twins())
  {
  }

  function Twins(): Tables {
    Tables(map[1 := 7], map[1 := Some(1), 2 := Some(1)], None, Some(map[1 := Some(1), 2 := Some(2)]),
           Some(map[1 := Header(7, None), 2 := Header(7, None)]))
  }

  // ---------- the statements ----------

  class Bind {
    var quotations: map<QuotationId, int>
    var orders: map<OrderId, Option<QuotationId>>
    var orderUrls: Option<map<OrderId, Option<string>>>
    var orderHeaders: Option<map<OrderId, Option<HeaderId>>>
    var headers: Option<map<HeaderId, Header>>

    ghost function Abs(): Tables
      reads this
    {
      Tables(quotations, orders, orderUrls, orderHeaders, headers)
    }

    constructor (t: Tables)
      ensures Abs() == t
    {
      quotations, orders, orderUrls, orderHeaders, headers := t.quotations, t.orders, t.orderUrls, t.orderHeaders, t.headers;
    }

    /** INSERT ... SELECT DISTINCT: rows come in any order and take the next identity. */
    method InsertHeaders()
      requires Before(Abs().(orderHeaders := None, headers := None)) && headers == Some(map[])
      modifies this`headers
      ensures headers.Some? && RowsFor(headers.value, DistinctHeaders(old(Abs()).(orderHeaders := None, headers := None)))
    {
      var rows := set o | o in orders && orders[o].Some? :: Header(quotations[orders[o].value], orderUrls.value[o]);
      ghost var wanted := DistinctHeaders(Abs().(orderHeaders := None, headers := None));
      assert rows == wanted;
      var table: map<HeaderId, Header> := map[];
      var next: nat := 1;
      while rows != {}
        invariant rows <= wanted && rows !! table.Values && rows + table.Values == wanted
        invariant forall h :: h in table ==> h < next
        invariant forall h, k :: h in table && k in table && table[h] == table[k] ==> h == k
        decreases rows
      {
        var row :| row in rows;
        ghost var was := table;
        table := table[next := row];
        assert table.Values == was.Values + {row} by {
          assert table[next] == row;
          forall h | h in was ensures was[h] in table.Values {
            assert table[h] == was[h];
          }
        }
        rows := rows - {row};
        next := next + 1;
      }
      headers := Some(table);
    }

    /** UPDATE ... FROM quotations, purchase_orders: an order without a match keeps its null. */
    method LinkOrders()
      requires Before(Abs().(orderHeaders := None, headers := None))
      requires headers.Some? && RowsFor(headers.value, DistinctHeaders(Abs().(orderHeaders := None, headers := None)))
      requires orderHeaders.Some? && orderHeaders.value.Keys == orders.Keys
      requires forall o :: o in orders ==> orderHeaders.value[o].None?
      modifies this`orderHeaders
      ensures orderHeaders.Some? && orderHeaders.value.Keys == orders.Keys
      ensures forall o :: o in orders ==>
                if orders[o].None? then orderHeaders.value[o].None?
                else orderHeaders.value[o].Some? && orderHeaders.value[o].value in headers.value
                     && headers.value[orderHeaders.value[o].value] == Header(quotations[orders[o].value], orderUrls.value[o])
    {
      var column := orderHeaders.value;
      var todo := orders.Keys;
      while todo != {}
        invariant todo <= orders.Keys == column.Keys
        invariant forall o :: o in todo ==> column[o].None?
        invariant forall o :: o in orders && o !in todo ==>
                    if orders[o].None? then column[o].None?
                    else column[o].Some? && column[o].value in headers.value
                         && headers.value[column[o].value] == Header(quotations[orders[o].value], orderUrls.value[o])
        decreases todo
      {
        var o :| o in todo;
        if orders[o].Some? {
          var wanted := Header(quotations[orders[o].value], orderUrls.value[o]);
          assert wanted in headers.value.Values by {
            assert wanted == HeaderOf(Abs().(orderHeaders := None, headers := None), o);
          }
          var h :| h in headers.value && headers.value[h] == wanted;
          column := column[o := Some(h)];
        }
        todo := todo - {o};
      }
      orderHeaders := Some(column);
    }

    /** The eight statements, inside the migration's transaction: a failing one undoes all. */
    method Upgrade() returns (ok: bool)
      requires Before(Abs())
      modifies this
      ensures ok <==> EveryOrderQuoted(old(Abs()))
      ensures ok ==> Upgraded(old(Abs()), Abs())
      ensures !ok ==> Abs() == old(Abs())
    {
      var savedHeaders, savedOrderHeaders := headers, orderHeaders;
      headers := Some(map[]);
      orderHeaders := Some(map o | o in orders :: None);
      InsertHeaders();
      LinkOrders();
      if exists o :: o in orders && orderHeaders.value[o].None? {
        headers, orderHeaders := savedHeaders, savedOrderHeaders;
        return false;
      }
      orderUrls := None;
      return true;
    }

    /** The six statements of the downgrade. */
    method Downgrade()
      requires orderUrls.None? && orderHeaders.Some? && headers.Some? && orderHeaders.value.Keys == orders.Keys
      modifies this
      ensures Abs() == Downgraded(old(Abs()))
    {
      var column: map<OrderId, Option<string>> := map o | o in orders :: None;
      var todo := orders.Keys;
      while todo != {}
        invariant todo <= orders.Keys == column.Keys
        invariant forall o :: o in todo ==> column[o].None?
        invariant forall o :: o in orders && o !in todo ==> column[o] == Downgraded(Abs()).orderUrls.value[o]
        decreases todo
      {
        var o :| o in todo;
        if orderHeaders.value[o].Some? && orderHeaders.value[o].value in headers.value {
          column := column[o := headers.value[orderHeaders.value[o].value].url];
        }
        todo := todo - {o};
      }
      assert Downgraded(Abs()).orderUrls.value == column;
      orderUrls := Some(column);
      orderHeaders := None;
      headers := None;
    }
  }

  /** Upgrading and downgrading in place leaves every table as it was. */
  method RoundTrip(b: Bind)
    requires Before(b.Abs()) && EveryOrderQuoted(b.Abs())
    modifies b
    ensures b.Abs() == old(b.Abs())
  {
    var ok := b.Upgrade();
    DowngradeInvertsUpgrade(old(b.Abs()), b.Abs());
    b.Downgrade();
  }
}
