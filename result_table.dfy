/**
 * The response flattening of `save_outputs` in src/main.py: a saved Distance
 * Matrix reply for one mode, direction and slice is written into the points
 * table, one table row per point of the slice. The table is a map from
 * (row index, column name) to a cell; a key that is absent is a cell pandas
 * would leave empty.
 */
module ResultTable {
  import opened Wrappers
  import DistanceMatrixClient

  type Element = DistanceMatrixClient.Element
  type Row = DistanceMatrixClient.Row
  type Payload = DistanceMatrixClient.Payload

  const ZeroResults := "ZERO_RESULTS"
  const Ok := "OK"
  const AddressField := "address"

  /** A table cell: `None` (written as an empty value), a number, or an address. */
  datatype Cell = Missing | Number(value: int) | Address(text: string)

  type Cells = map<(nat, string), Cell>

  /** The two numbers an element carries. */
  datatype Measure = Distance | Duration

  function MeasureField(m: Measure): string
  {
    match m
    case Distance => "distance"
    case Duration => "duration"
  }

  /** `'{}-{}-{}'.format(mode, direction, field)`. */
  function Column(mode: string, direction: string, field: string): string
  {
    mode + "-" + direction + "-" + field
  }

  function MeasureColumn(mode: string, direction: string, m: Measure): string
  {
    Column(mode, direction, MeasureField(m))
  }

  /** Columns of one mode and direction differ when their fields differ. */
  lemma ColumnsDiffer(mode: string, direction: string, a: string, b: string)
    requires a != b
    ensures Column(mode, direction, a) != Column(mode, direction, b)
  {
    var prefix := mode + "-" + direction + "-";
    assert Column(mode, direction, a) == prefix + a && Column(mode, direction, b) == prefix + b;
    assert (prefix + a)[|prefix|..] == a && (prefix + b)[|prefix|..] == b;
  }

  /** The address column and the two measure columns of one mode and direction are distinct. */
  lemma MeasureColumnsDiffer(mode: string, direction: string)
    ensures MeasureColumn(mode, direction, Distance) != MeasureColumn(mode, direction, Duration)
    ensures forall m :: MeasureColumn(mode, direction, m) != Column(mode, direction, AddressField)
  {
    ColumnsDiffer(mode, direction, "distance", "duration");
    ColumnsDiffer(mode, direction, "distance", AddressField);
    ColumnsDiffer(mode, direction, "duration", AddressField);
  }

  /** The row labels of the table: pandas keeps a row once any cell of it is assigned. */
  function RowLabels(cells: Cells): set<nat>
  {
    set key | key in cells :: key.0
  }

  /** `len(df)`: the number of row labels. */
  function Len(cells: Cells): nat
  {
    |RowLabels(cells)|
  }

  /** The labels `0..n-1` of a table read from a CSV file of `n` rows. */
  function RowRange(n: nat): (s: set<nat>)
    ensures forall r: nat :: r in s <==> r < n
  {
    if n == 0 then {} else RowRange(n - 1) + {n - 1}
  }

  lemma {:induction false} RowRangeSize(n: nat)
    ensures |RowRange(n)| == n
  {
    if n > 0 {
      RowRangeSize(n - 1);
    }
  }

  /** The table after a run of `df.loc` assignments, and whether no assertion failed on the way. */
  datatype Update = Update(cells: Cells, ok: bool)

  /** An `OK` element carries both its distance and its duration value. */
  predicate ElementComplete(e: Element)
  {
    e.status == Ok ==> e.distance.Some? && e.duration.Some?
  }

  predicate Complete(es: seq<Element>)
  {
    forall k :: 0 <= k < |es| ==> ElementComplete(es[k])
  }

  /**
   * What one element leaves in a measure cell that held `prior`: nothing for
   * `ZERO_RESULTS`, the value for `OK`, and `prior` for any other status.
   */
  function ElementCell(prior: Option<Cell>, e: Element, m: Measure): Option<Cell>
    requires ElementComplete(e)
  {
    if e.status == ZeroResults then Some(Missing)
    else if e.status == Ok then Some(Number(if m == Distance then e.distance.value else e.duration.value))
    else prior
  }

  /** What a run of elements written to the same row leaves in a measure cell that held `prior`. */
  function Decided(prior: Option<Cell>, es: seq<Element>, m: Measure): Option<Cell>
    requires Complete(es)
  {
    if |es| == 0 then prior
    else ElementCell(Decided(prior, es[..|es| - 1], m), es[|es| - 1], m)
  }

  /** The key is a measure cell of the given mode and direction in one of `count` rows from `first`. */
  predicate Touched(first: nat, count: nat, mode: string, direction: string, key: (nat, string))
  {
    && first <= key.0 < first + count
    && (key.1 == MeasureColumn(mode, direction, Distance) || key.1 == MeasureColumn(mode, direction, Duration))
  }

  /** The assignments for one element written to `row`. */
  function ApplyElement(cells: Cells, row: nat, mode: string, direction: string, e: Element): (r: Update)
    ensures !r.ok ==> r.cells == cells
    ensures cells.Keys <= r.cells.Keys
  {
    var distance, duration := MeasureColumn(mode, direction, Distance), MeasureColumn(mode, direction, Duration);
    if e.status == ZeroResults then
      Update(cells[(row, distance) := Missing][(row, duration) := Missing], true)
    else if e.status == Ok then
      if e.distance.None? || e.duration.None? then Update(cells, false)
      else Update(cells[(row, distance) := Number(e.distance.value)][(row, duration) := Number(e.duration.value)], true)
    else Update(cells, true)
  }

  /** One element after the ones before it, unless an assertion has already failed. */
  function Step(u: Update, row: nat, mode: string, direction: string, e: Element): Update
  {
    if u.ok then ApplyElement(u.cells, row, mode, direction, e) else u
  }

  /** The elements of one arrival row, all written to the same table row. */
  function RowUpdate(u: Update, row: nat, mode: string, direction: string, es: seq<Element>): (r: Update)
    ensures !u.ok ==> r == u
    ensures u.cells.Keys <= r.cells.Keys
  {
    if |es| == 0 then u
    else Step(RowUpdate(u, row, mode, direction, es[..|es| - 1]), row, mode, direction, es[|es| - 1])
  }

  /** The arrival rows: the `j`-th reply row goes to table row `i + j`. */
  function ArrivalRowsUpdate(u: Update, i: nat, mode: string, direction: string, rows: seq<Row>): (r: Update)
    ensures !u.ok ==> r == u
    ensures u.cells.Keys <= r.cells.Keys
  {
    if |rows| == 0 then u
    else
      RowUpdate(ArrivalRowsUpdate(u, i, mode, direction, rows[..|rows| - 1]),
                i + |rows| - 1, mode, direction, rows[|rows| - 1].elements)
  }

  /** The elements of the single departure row: the `j`-th goes to table row `i + j`. */
  function DepartureElementsUpdate(u: Update, i: nat, mode: string, direction: string, es: seq<Element>): (r: Update)
    ensures !u.ok ==> r == u
    ensures u.cells.Keys <= r.cells.Keys
  {
    if |es| == 0 then u
    else Step(DepartureElementsUpdate(u, i, mode, direction, es[..|es| - 1]), i + |es| - 1, mode, direction, es[|es| - 1])
  }

  /** The `j`-th address goes to table row `i + j` of `column`. */
  function AddressesUpdate(cells: Cells, i: nat, column: string, addresses: seq<string>): (r: Cells)
    ensures cells.Keys <= r.Keys
  {
    if |addresses| == 0 then cells
    else AddressesUpdate(cells, i, column, addresses[..|addresses| - 1])
           [(i + |addresses| - 1, column) := Address(addresses[|addresses| - 1])]
  }

  /** The table after reading an arrival reply for the slice starting at `i`. */
  function ReadArrival(cells: Cells, i: nat, mode: string, payload: Payload): (r: Update)
    ensures cells.Keys <= r.cells.Keys
  {
    var afterAddresses := AddressesUpdate(cells, i, Column(mode, "arrival", AddressField), payload.originAddresses);
    ArrivalRowsUpdate(Update(afterAddresses, true), i, mode, "arrival", payload.rows)
  }

  /** The table after reading a departure reply for the slice starting at `i`. */
  function ReadDeparture(cells: Cells, i: nat, mode: string, payload: Payload): (r: Update)
    ensures cells.Keys <= r.cells.Keys
  {
    var afterAddresses := AddressesUpdate(cells, i, Column(mode, "departure", AddressField), payload.destinationAddresses);
    if |payload.rows| != 1 then Update(afterAddresses, false)
    else DepartureElementsUpdate(Update(afterAddresses, true), i, mode, "departure", payload.rows[0].elements)
  }

  // ---------------------------------------------------------------------------
  // What the flattening does to each cell
  // ---------------------------------------------------------------------------

  /**
   * One element: the assertions fail exactly when an `OK` element lacks a
   * value; otherwise its two measure cells in `row` take what `ElementCell`
   * says, and no other cell changes.
   */
  lemma ApplyElementEffect(cells: Cells, row: nat, mode: string, direction: string, e: Element)
    ensures var r := ApplyElement(cells, row, mode, direction, e);
      && (r.ok <==> ElementComplete(e))
      && (r.ok ==> forall m :: Get(r.cells, (row, MeasureColumn(mode, direction, m)))
                               == ElementCell(Get(cells, (row, MeasureColumn(mode, direction, m))), e, m))
      && (forall key :: !Touched(row, 1, mode, direction, key) ==> Get(r.cells, key) == Get(cells, key))
  {
    MeasureColumnsDiffer(mode, direction);
  }

  lemma {:induction false} RowUpdateEffect(u: Update, row: nat, mode: string, direction: string, es: seq<Element>)
    requires u.ok
    ensures var r := RowUpdate(u, row, mode, direction, es);
      && (r.ok <==> Complete(es))
      && (r.ok ==> forall m :: Get(r.cells, (row, MeasureColumn(mode, direction, m)))
                               == Decided(Get(u.cells, (row, MeasureColumn(mode, direction, m))), es, m))
      && (forall key :: !Touched(row, 1, mode, direction, key) ==> Get(r.cells, key) == Get(u.cells, key))
  {
    if |es| > 0 {
      var front := es[..|es| - 1];
      var e := es[|es| - 1];
      RowUpdateEffect(u, row, mode, direction, front);
      var prefix := RowUpdate(u, row, mode, direction, front);
      assert forall k :: 0 <= k < |front| ==> front[k] == es[k];
      if prefix.ok {
        ApplyElementEffect(prefix.cells, row, mode, direction, e);
      } else {
        var k :| 0 <= k < |front| && !ElementComplete(front[k]);
        assert es[k] == front[k];
      }
    }
  }

  /** The arrival rows fail exactly when some `OK` element lacks a value. */
  lemma {:induction false} ArrivalRowsOk(u: Update, i: nat, mode: string, direction: string, rows: seq<Row>)
    requires u.ok
    ensures ArrivalRowsUpdate(u, i, mode, direction, rows).ok <==> forall j :: 0 <= j < |rows| ==> Complete(rows[j].elements)
  {
    if |rows| > 0 {
      var front := rows[..|rows| - 1];
      ArrivalRowsOk(u, i, mode, direction, front);
      assert forall j :: 0 <= j < |front| ==> front[j] == rows[j];
      var prefix := ArrivalRowsUpdate(u, i, mode, direction, front);
      if prefix.ok {
        RowUpdateEffect(prefix, i + |front|, mode, direction, rows[|front|].elements);
      }
    }
  }

  /** The arrival rows change only the measure cells of table rows `i` to `i + |rows| - 1`. */
  lemma {:induction false} ArrivalRowsLocal(u: Update, i: nat, mode: string, direction: string, rows: seq<Row>)
    requires u.ok
    ensures forall key :: !Touched(i, |rows|, mode, direction, key) ==>
      Get(ArrivalRowsUpdate(u, i, mode, direction, rows).cells, key) == Get(u.cells, key)
  {
    if |rows| > 0 {
      var front := rows[..|rows| - 1];
      ArrivalRowsLocal(u, i, mode, direction, front);
      var prefix := ArrivalRowsUpdate(u, i, mode, direction, front);
      if prefix.ok {
        RowUpdateEffect(prefix, i + |front|, mode, direction, rows[|front|].elements);
      }
      forall key | !Touched(i, |rows|, mode, direction, key)
        ensures Get(ArrivalRowsUpdate(u, i, mode, direction, rows).cells, key) == Get(u.cells, key)
      {
        assert !Touched(i, |front|, mode, direction, key) && !Touched(i + |front|, 1, mode, direction, key);
      }
    }
  }

  /** When the arrival rows succeed, reply row `j` decides the measure cells of table row `i + j`. */
  lemma {:induction false} ArrivalRowValue(u: Update, i: nat, mode: string, direction: string, rows: seq<Row>, j: nat, m: Measure)
    requires u.ok && ArrivalRowsUpdate(u, i, mode, direction, rows).ok && j < |rows|
    requires Complete(rows[j].elements)
    ensures Get(ArrivalRowsUpdate(u, i, mode, direction, rows).cells, (i + j, MeasureColumn(mode, direction, m)))
         == Decided(Get(u.cells, (i + j, MeasureColumn(mode, direction, m))), rows[j].elements, m)
  {
    var front := rows[..|rows| - 1];
    var last := |front|;
    var prefix := ArrivalRowsUpdate(u, i, mode, direction, front);
    var r := ArrivalRowsUpdate(u, i, mode, direction, rows);
    var key := (i + j, MeasureColumn(mode, direction, m));
    assert r == RowUpdate(prefix, i + last, mode, direction, rows[last].elements);
    assert prefix.ok;
    if j < last {
      assert front[j] == rows[j];
      ArrivalRowValue(u, i, mode, direction, front, j, m);
      assert Get(r.cells, key) == Get(prefix.cells, key) by {
        RowUpdateEffect(prefix, i + last, mode, direction, rows[last].elements);
        assert !Touched(i + last, 1, mode, direction, key);
      }
    } else {
      assert Get(prefix.cells, key) == Get(u.cells, key) by {
        ArrivalRowsLocal(u, i, mode, direction, front);
        assert !Touched(i, |front|, mode, direction, key);
      }
      RowUpdateEffect(prefix, i + last, mode, direction, rows[last].elements);
    }
  }

  /**
   * When the arrival rows succeed, the measure cells of table row `i + j`
   * are what the elements of reply row `j` decide.
   */
  lemma ArrivalRowsValues(u: Update, i: nat, mode: string, direction: string, rows: seq<Row>)
    requires u.ok && ArrivalRowsUpdate(u, i, mode, direction, rows).ok
    ensures forall j :: 0 <= j < |rows| ==> Complete(rows[j].elements)
    ensures forall j, m :: 0 <= j < |rows| ==>
      Get(ArrivalRowsUpdate(u, i, mode, direction, rows).cells, (i + j, MeasureColumn(mode, direction, m)))
      == Decided(Get(u.cells, (i + j, MeasureColumn(mode, direction, m))), rows[j].elements, m)
  {
    ArrivalRowsOk(u, i, mode, direction, rows);
    forall j, m | 0 <= j < |rows|
      ensures Get(ArrivalRowsUpdate(u, i, mode, direction, rows).cells, (i + j, MeasureColumn(mode, direction, m)))
           == Decided(Get(u.cells, (i + j, MeasureColumn(mode, direction, m))), rows[j].elements, m)
    {
      ArrivalRowValue(u, i, mode, direction, rows, j, m);
    }
  }

  /** The departure elements fail exactly when some `OK` element lacks a value. */
  lemma {:induction false} DepartureElementsOk(u: Update, i: nat, mode: string, direction: string, es: seq<Element>)
    requires u.ok
    ensures DepartureElementsUpdate(u, i, mode, direction, es).ok <==> Complete(es)
  {
    if |es| > 0 {
      var front := es[..|es| - 1];
      DepartureElementsOk(u, i, mode, direction, front);
      assert forall j :: 0 <= j < |front| ==> front[j] == es[j];
      var prefix := DepartureElementsUpdate(u, i, mode, direction, front);
      if prefix.ok {
        ApplyElementEffect(prefix.cells, i + |front|, mode, direction, es[|front|]);
      }
    }
  }

  /** The departure elements change only the measure cells of table rows `i` to `i + |es| - 1`. */
  lemma {:induction false} DepartureElementsLocal(u: Update, i: nat, mode: string, direction: string, es: seq<Element>)
    requires u.ok
    ensures forall key :: !Touched(i, |es|, mode, direction, key) ==>
      Get(DepartureElementsUpdate(u, i, mode, direction, es).cells, key) == Get(u.cells, key)
  {
    if |es| > 0 {
      var front := es[..|es| - 1];
      DepartureElementsLocal(u, i, mode, direction, front);
      var prefix := DepartureElementsUpdate(u, i, mode, direction, front);
      if prefix.ok {
        ApplyElementEffect(prefix.cells, i + |front|, mode, direction, es[|front|]);
      }
      forall key | !Touched(i, |es|, mode, direction, key)
        ensures Get(DepartureElementsUpdate(u, i, mode, direction, es).cells, key) == Get(u.cells, key)
      {
        assert !Touched(i, |front|, mode, direction, key) && !Touched(i + |front|, 1, mode, direction, key);
      }
    }
  }

  /** When the departure elements succeed, element `j` decides the measure cells of table row `i + j`. */
  lemma {:induction false} DepartureElementValue(u: Update, i: nat, mode: string, direction: string, es: seq<Element>, j: nat, m: Measure)
    requires u.ok && DepartureElementsUpdate(u, i, mode, direction, es).ok && j < |es|
    requires Complete(es)
    ensures Get(DepartureElementsUpdate(u, i, mode, direction, es).cells, (i + j, MeasureColumn(mode, direction, m)))
         == ElementCell(Get(u.cells, (i + j, MeasureColumn(mode, direction, m))), es[j], m)
  {
    var front := es[..|es| - 1];
    var last := |front|;
    var prefix := DepartureElementsUpdate(u, i, mode, direction, front);
    var r := DepartureElementsUpdate(u, i, mode, direction, es);
    var key := (i + j, MeasureColumn(mode, direction, m));
    assert r == Step(prefix, i + last, mode, direction, es[last]);
    assert prefix.ok;
    if j < last {
      assert front[j] == es[j];
      DepartureElementValue(u, i, mode, direction, front, j, m);
      assert Get(r.cells, key) == Get(prefix.cells, key) by {
        ApplyElementEffect(prefix.cells, i + last, mode, direction, es[last]);
        assert !Touched(i + last, 1, mode, direction, key);
      }
    } else {
      assert Get(prefix.cells, key) == Get(u.cells, key) by {
        DepartureElementsLocal(u, i, mode, direction, front);
        assert !Touched(i, |front|, mode, direction, key);
      }
      ApplyElementEffect(prefix.cells, i + last, mode, direction, es[last]);
    }
  }

  /** When the departure elements succeed, the measure cells of table row `i + j` are what element `j` leaves. */
  lemma DepartureElementsValues(u: Update, i: nat, mode: string, direction: string, es: seq<Element>)
    requires u.ok && DepartureElementsUpdate(u, i, mode, direction, es).ok
    ensures Complete(es)
    ensures forall j, m :: 0 <= j < |es| ==>
      Get(DepartureElementsUpdate(u, i, mode, direction, es).cells, (i + j, MeasureColumn(mode, direction, m)))
      == ElementCell(Get(u.cells, (i + j, MeasureColumn(mode, direction, m))), es[j], m)
  {
    DepartureElementsOk(u, i, mode, direction, es);
    forall j, m | 0 <= j < |es|
      ensures Get(DepartureElementsUpdate(u, i, mode, direction, es).cells, (i + j, MeasureColumn(mode, direction, m)))
           == ElementCell(Get(u.cells, (i + j, MeasureColumn(mode, direction, m))), es[j], m)
    {
      DepartureElementValue(u, i, mode, direction, es, j, m);
    }
  }

  /** Address `j` lands in row `i + j` of `column`, and nothing outside those cells changes. */
  lemma {:induction false} AddressesEffect(cells: Cells, i: nat, column: string, addresses: seq<string>)
    ensures var r := AddressesUpdate(cells, i, column, addresses);
      && (forall j :: 0 <= j < |addresses| ==> Get(r, (i + j, column)) == Some(Address(addresses[j])))
      && (forall key: (nat, string) :: !(i <= key.0 < i + |addresses| && key.1 == column) ==> Get(r, key) == Get(cells, key))
  {
    if |addresses| > 0 {
      var front := addresses[..|addresses| - 1];
      AddressesEffect(cells, i, column, front);
      assert forall j :: 0 <= j < |front| ==> front[j] == addresses[j];
    }
  }

  /**
   * Reading an arrival reply: the origin addresses fill the address column
   * from row `i`; the assertions hold exactly when every `OK` element carries
   * its values, and then row `i + j`'s distance and duration are what reply
   * row `j` decides; no cell outside the slice's three columns changes.
   */
  lemma ReadArrivalEffect(cells: Cells, i: nat, mode: string, payload: Payload)
    ensures var r, rows, addresses := ReadArrival(cells, i, mode, payload), payload.rows, payload.originAddresses;
      && (r.ok <==> forall j :: 0 <= j < |rows| ==> Complete(rows[j].elements))
      && (forall j :: 0 <= j < |addresses| ==> Get(r.cells, (i + j, Column(mode, "arrival", AddressField))) == Some(Address(addresses[j])))
      && (r.ok ==> forall j, m :: 0 <= j < |rows| ==>
            Get(r.cells, (i + j, MeasureColumn(mode, "arrival", m)))
            == Decided(Get(cells, (i + j, MeasureColumn(mode, "arrival", m))), rows[j].elements, m))
      && (forall key: (nat, string) :: key.1 != Column(mode, "arrival", AddressField) && !Touched(i, |rows|, mode, "arrival", key) ==>
            Get(r.cells, key) == Get(cells, key))
  {
    var column := Column(mode, "arrival", AddressField);
    var afterAddresses := AddressesUpdate(cells, i, column, payload.originAddresses);
    AddressesEffect(cells, i, column, payload.originAddresses);
    var u := Update(afterAddresses, true);
    ArrivalRowsOk(u, i, mode, "arrival", payload.rows);
    ArrivalRowsLocal(u, i, mode, "arrival", payload.rows);
    if ArrivalRowsUpdate(u, i, mode, "arrival", payload.rows).ok {
      ArrivalRowsValues(u, i, mode, "arrival", payload.rows);
    }
    MeasureColumnsDiffer(mode, "arrival");
  }

  /**
   * Reading a departure reply: the destination addresses fill the address
   * column from row `i`; the assertions hold exactly when the reply has a
   * single row whose `OK` elements carry their values, and then row `i + j`'s
   * distance and duration are what element `j` leaves; no cell outside the
   * slice's three columns changes.
   */
  lemma ReadDepartureEffect(cells: Cells, i: nat, mode: string, payload: Payload)
    ensures var r, rows, addresses := ReadDeparture(cells, i, mode, payload), payload.rows, payload.destinationAddresses;
      && (r.ok <==> |rows| == 1 && Complete(rows[0].elements))
      && (forall j :: 0 <= j < |addresses| ==> Get(r.cells, (i + j, Column(mode, "departure", AddressField))) == Some(Address(addresses[j])))
      && (r.ok ==> forall j, m :: 0 <= j < |rows[0].elements| ==>
            Get(r.cells, (i + j, MeasureColumn(mode, "departure", m)))
            == ElementCell(Get(cells, (i + j, MeasureColumn(mode, "departure", m))), rows[0].elements[j], m))
      && (forall key: (nat, string) ::
            (key.1 != Column(mode, "departure", AddressField)
             && !Touched(i, if |rows| == 1 then |rows[0].elements| else 0, mode, "departure", key)) ==>
            Get(r.cells, key) == Get(cells, key))
  {
    var column := Column(mode, "departure", AddressField);
    var afterAddresses := AddressesUpdate(cells, i, column, payload.destinationAddresses);
    AddressesEffect(cells, i, column, payload.destinationAddresses);
    if |payload.rows| == 1 {
      var u, es := Update(afterAddresses, true), payload.rows[0].elements;
      DepartureElementsOk(u, i, mode, "departure", es);
      DepartureElementsLocal(u, i, mode, "departure", es);
      if DepartureElementsUpdate(u, i, mode, "departure", es).ok {
        DepartureElementsValues(u, i, mode, "departure", es);
      }
    }
    MeasureColumnsDiffer(mode, "departure");
  }

  /** An arrival reply with one element per row writes element `j`'s verdict into row `i + j`. */
  lemma SingleElementRows(cells: Cells, i: nat, mode: string, payload: Payload)
    requires forall j :: 0 <= j < |payload.rows| ==> |payload.rows[j].elements| == 1
    requires ReadArrival(cells, i, mode, payload).ok
    ensures forall j, m :: 0 <= j < |payload.rows| ==>
      ElementComplete(payload.rows[j].elements[0]) &&
      Get(ReadArrival(cells, i, mode, payload).cells, (i + j, MeasureColumn(mode, "arrival", m)))
      == ElementCell(Get(cells, (i + j, MeasureColumn(mode, "arrival", m))), payload.rows[j].elements[0], m)
  {
    ReadArrivalEffect(cells, i, mode, payload);
    forall j, m | 0 <= j < |payload.rows|
      ensures ElementComplete(payload.rows[j].elements[0]) &&
        Decided(Get(cells, (i + j, MeasureColumn(mode, "arrival", m))), payload.rows[j].elements, m)
        == ElementCell(Get(cells, (i + j, MeasureColumn(mode, "arrival", m))), payload.rows[j].elements[0], m)
    {
      var es := payload.rows[j].elements;
      assert Complete(es);
      assert es[..0] == [];
    }
  }

  // ---------------------------------------------------------------------------
  // Which table rows a reply reaches
  // ---------------------------------------------------------------------------

  /**
   * How many table rows from the slice start a reply reaches: one per
   * address, and one per reply row (arrival) or per element of the single
   * row (departure).
   */
  function ReplyRows(direction: string, payload: Payload): nat
  {
    var measured := if direction == "arrival" then |payload.rows|
                    else if |payload.rows| == 1 then |payload.rows[0].elements| else 0;
    var addresses := if direction == "arrival" then |payload.originAddresses| else |payload.destinationAddresses|;
    if addresses < measured then measured else addresses
  }

  /** Reading an arrival reply changes no cell outside the rows it reaches. */
  lemma ReadArrivalReach(cells: Cells, i: nat, mode: string, payload: Payload)
    ensures forall key: (nat, string) :: !(i <= key.0 < i + ReplyRows("arrival", payload)) ==>
      Get(ReadArrival(cells, i, mode, payload).cells, key) == Get(cells, key)
  {
    var column := Column(mode, "arrival", AddressField);
    var afterAddresses := AddressesUpdate(cells, i, column, payload.originAddresses);
    AddressesEffect(cells, i, column, payload.originAddresses);
    ArrivalRowsLocal(Update(afterAddresses, true), i, mode, "arrival", payload.rows);
  }

  /** Reading a departure reply changes no cell outside the rows it reaches. */
  lemma ReadDepartureReach(cells: Cells, i: nat, mode: string, payload: Payload)
    ensures forall key: (nat, string) :: !(i <= key.0 < i + ReplyRows("departure", payload)) ==>
      Get(ReadDeparture(cells, i, mode, payload).cells, key) == Get(cells, key)
  {
    var column := Column(mode, "departure", AddressField);
    var afterAddresses := AddressesUpdate(cells, i, column, payload.destinationAddresses);
    AddressesEffect(cells, i, column, payload.destinationAddresses);
    if |payload.rows| == 1 {
      DepartureElementsLocal(Update(afterAddresses, true), i, mode, "departure", payload.rows[0].elements);
    }
  }

  /**
   * Assignments that keep every cell and change nothing outside `count` rows
   * from `i` keep every row label and add labels only in those rows.
   */
  lemma RowsWithin(before: Cells, after: Cells, i: nat, count: nat)
    requires before.Keys <= after.Keys
    requires forall key: (nat, string) :: !(i <= key.0 < i + count) ==> Get(after, key) == Get(before, key)
    ensures RowLabels(before) <= RowLabels(after)
    ensures forall row :: row in RowLabels(after) ==> row in RowLabels(before) || i <= row < i + count
  {
    forall row | row in RowLabels(after) && !(i <= row < i + count)
      ensures row in RowLabels(before)
    {
      var key :| key in after && key.0 == row;
      assert Get(after, key) == Get(before, key);
    }
  }

  /**
   * An arrival reply for a slice starting at `i` with more origin addresses
   * than the table has rows from `i` on adds a row label, so `len(df)` grows.
   */
  lemma OversizeArrivalGrowsTable(cells: Cells, i: nat, mode: string, payload: Payload, n: nat)
    requires RowLabels(cells) == RowRange(n)
    requires i < n < i + |payload.originAddresses|
    ensures Len(ReadArrival(cells, i, mode, payload).cells) > n
  {
    var column := Column(mode, "arrival", AddressField);
    var afterAddresses := AddressesUpdate(cells, i, column, payload.originAddresses);
    var after := ReadArrival(cells, i, mode, payload).cells;
    var j := |payload.originAddresses| - 1;
    assert (i + j, column) in afterAddresses by {
      AddressesEffect(cells, i, column, payload.originAddresses);
      assert Get(afterAddresses, (i + j, column)) == Some(Address(payload.originAddresses[j]));
    }
    assert afterAddresses.Keys <= after.Keys;
    var grown := RowRange(n) + {i + j};
    assert grown <= RowLabels(after) by {
      assert i + j in RowLabels(after);
    }
    assert |grown| == n + 1 by {
      RowRangeSize(n);
    }
    SubsetSize(grown, RowLabels(after));
  }

  lemma {:induction false} SubsetSize(a: set<nat>, b: set<nat>)
    requires a <= b
    ensures |a| <= |b|
  {
    assert b == a + (b - a);
  }

  // ---------------------------------------------------------------------------
  // Failure persistence, for the loops below
  // ---------------------------------------------------------------------------

  lemma {:induction false} RowFailurePersists(u: Update, row: nat, mode: string, direction: string, es: seq<Element>, k: nat)
    requires k <= |es| && !RowUpdate(u, row, mode, direction, es[..k]).ok
    ensures RowUpdate(u, row, mode, direction, es) == RowUpdate(u, row, mode, direction, es[..k])
    decreases |es| - k
  {
    if k < |es| {
      var front := es[..|es| - 1];
      assert front[..k] == es[..k];
      RowFailurePersists(u, row, mode, direction, front, k);
    } else {
      assert es[..k] == es;
    }
  }

  lemma {:induction false} RowsFailurePersists(u: Update, i: nat, mode: string, direction: string, rows: seq<Row>, k: nat)
    requires k <= |rows| && !ArrivalRowsUpdate(u, i, mode, direction, rows[..k]).ok
    ensures ArrivalRowsUpdate(u, i, mode, direction, rows) == ArrivalRowsUpdate(u, i, mode, direction, rows[..k])
    decreases |rows| - k
  {
    if k < |rows| {
      var front := rows[..|rows| - 1];
      assert front[..k] == rows[..k];
      RowsFailurePersists(u, i, mode, direction, front, k);
    } else {
      assert rows[..k] == rows;
    }
  }

  lemma {:induction false} DepartureFailurePersists(u: Update, i: nat, mode: string, direction: string, es: seq<Element>, k: nat)
    requires k <= |es| && !DepartureElementsUpdate(u, i, mode, direction, es[..k]).ok
    ensures DepartureElementsUpdate(u, i, mode, direction, es) == DepartureElementsUpdate(u, i, mode, direction, es[..k])
    decreases |es| - k
  {
    if k < |es| {
      var front := es[..|es| - 1];
      assert front[..k] == es[..k];
      DepartureFailurePersists(u, i, mode, direction, front, k);
    } else {
      assert es[..k] == es;
    }
  }

  // ---------------------------------------------------------------------------
  // The table as `save_outputs` updates it
  // ---------------------------------------------------------------------------

  /** The points table; `df.loc[row, column] = value` overwrites one cell. */
  class Frame {
    var cells: Cells

    constructor (cells: Cells)
      ensures this.cells == cells
    {
      this.cells := cells;
    }

    /** `df.loc[row, column] = value`. */
    method Set(row: nat, column: string, value: Cell)
      modifies this
      ensures cells == old(cells)[(row, column) := value]
    {
      cells := cells[(row, column) := value];
    }

    /** The address loop: the `j`-th address goes to row `i + j`, `j` counted by hand. */
    method WriteAddresses(i: nat, column: string, addresses: seq<string>)
      modifies this
      ensures cells == AddressesUpdate(old(cells), i, column, addresses)
    {
      var j := 0;
      while j < |addresses|
        invariant 0 <= j <= |addresses|
        invariant cells == AddressesUpdate(old(cells), i, column, addresses[..j])
      {
        assert addresses[..j + 1][..j] == addresses[..j];
        Set(i + j, column, Address(addresses[j]));
        j := j + 1;
      }
      assert addresses[..j] == addresses;
    }

    /**
     * The status branches for one element written to `row`; false when an
     * `OK` element lacks its distance or duration value.
     */
    method WriteElement(row: nat, mode: string, direction: string, e: Element) returns (ok: bool)
      modifies this
      ensures Update(cells, ok) == ApplyElement(old(cells), row, mode, direction, e)
    {
      var distance, duration := MeasureColumn(mode, direction, Distance), MeasureColumn(mode, direction, Duration);
      if e.status == ZeroResults {
        Set(row, distance, Missing);
        Set(row, duration, Missing);
      } else if e.status == Ok {
        if e.distance.None? || e.duration.None? {
          return false;
        }
        Set(row, distance, Number(e.distance.value));
        Set(row, duration, Number(e.duration.value));
      }
      return true;
    }

    /** The element loop of one arrival row: every element goes to `row`. */
    method WriteRow(row: nat, mode: string, direction: string, elements: seq<Element>) returns (ok: bool)
      modifies this
      ensures Update(cells, ok) == RowUpdate(Update(old(cells), true), row, mode, direction, elements)
    {
      ghost var before := Update(cells, true);
      var k := 0;
      while k < |elements|
        invariant 0 <= k <= |elements|
        invariant RowUpdate(before, row, mode, direction, elements[..k]) == Update(cells, true)
      {
        assert elements[..k + 1][..k] == elements[..k];
        ok := WriteElement(row, mode, direction, elements[k]);
        if !ok {
          RowFailurePersists(before, row, mode, direction, elements, k + 1);
          return;
        }
        k := k + 1;
      }
      assert elements[..k] == elements;
      return true;
    }

    /** `save_outputs` for an arrival reply of the slice starting at `i`. */
    method ReadArrivalReply(i: nat, mode: string, payload: Payload) returns (ok: bool)
      modifies this
      ensures Update(cells, ok) == ReadArrival(old(cells), i, mode, payload)
    {
      var direction := "arrival";
      WriteAddresses(i, Column(mode, direction, AddressField), payload.originAddresses);
      ghost var afterAddresses := Update(cells, true);
      var rows := payload.rows;
      var j := 0;
      while j < |rows|
        invariant 0 <= j <= |rows|
        invariant ArrivalRowsUpdate(afterAddresses, i, mode, direction, rows[..j]) == Update(cells, true)
      {
        assert rows[..j + 1][..j] == rows[..j];
        ok := WriteRow(i + j, mode, direction, rows[j].elements);
        if !ok {
          RowsFailurePersists(afterAddresses, i, mode, direction, rows, j + 1);
          return;
        }
        j := j + 1;
      }
      assert rows[..j] == rows;
      return true;
    }

    /** `save_outputs` for a departure reply of the slice starting at `i`. */
    method ReadDepartureReply(i: nat, mode: string, payload: Payload) returns (ok: bool)
      modifies this
      ensures Update(cells, ok) == ReadDeparture(old(cells), i, mode, payload)
    {
      var direction := "departure";
      WriteAddresses(i, Column(mode, direction, AddressField), payload.destinationAddresses);
      if |payload.rows| != 1 {
        return false;
      }
      ghost var afterAddresses := Update(cells, true);
      var elements := payload.rows[0].elements;
      var j := 0;
      while j < |elements|
        invariant 0 <= j <= |elements|
        invariant DepartureElementsUpdate(afterAddresses, i, mode, direction, elements[..j]) == Update(cells, true)
      {
        assert elements[..j + 1][..j] == elements[..j];
        ok := WriteElement(i + j, mode, direction, elements[j]);
        if !ok {
          DepartureFailurePersists(afterAddresses, i, mode, direction, elements, j + 1);
          return;
        }
        j := j + 1;
      }
      assert elements[..j] == elements;
      return true;
    }
  }
}
