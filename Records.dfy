/** The connector's two record classes, `Travel` (a search request) and `Flight`
    (one offer), with their `__str__` renderings. */
module Records {
  import opened Text
  import opened Calendar

  /** A search request; built by the caller and never changed. */
  datatype Travel = Travel(
    origin: string,
    destination: string,
    departureDate: CalendarDate,
    returnDate: CalendarDate)

  /** One offer read from the result page. The price is the text of the offer's
      price element: it is never converted to a number. */
  datatype Flight = Flight(
    number: string,
    origin: string,
    destination: string,
    departureTime: Instant,
    arrivalTime: Instant,
    price: string)

  /** Cells separated by ` | `, the layout both `__str__` methods build with
      their f-strings. */
  function Line(cells: seq<string>): (r: string)
    requires |cells| >= 1
  {
    if |cells| == 1 then cells[0] else cells[0] + " | " + Line(cells[1..])
  }

  /** A line starts with its first cell and ends with its last. */
  lemma {:induction false} LineEnds(cells: seq<string>)
    requires |cells| >= 1
    ensures var r := Line(cells);
      && |r| >= |cells[0]| && r[..|cells[0]|] == cells[0]
      && |r| >= |cells[|cells| - 1]| && r[|r| - |cells[|cells| - 1]|..] == cells[|cells| - 1]
  {
    if |cells| > 1 {
      LineEnds(cells[1..]);
    }
  }

  /** `Travel.__str__`: origin | destination | departure date | return date,
      the dates in ISO 8601 form. */
  function TravelToString(t: Travel): (r: string)
    ensures |r| >= |t.origin| && r[..|t.origin|] == t.origin
    ensures |r| >= 10 && r[|r| - 10..] == IsoDate(t.returnDate)
  {
    var cells := [t.origin, t.destination, IsoDate(t.departureDate), IsoDate(t.returnDate)];
    LineEnds(cells);
    Line(cells)
  }

  /** `Flight.__str__` as written: the fourth and the fifth columns both render
      the departure time, so the arrival time never appears. */
  function FlightToString(f: Flight): (r: string)
    ensures |r| >= |f.number| && r[..|f.number|] == f.number
    ensures |r| > |f.price| && r[|r| - |f.price| - 1..] == f.price + "€"
  {
    var cells := [f.number, f.origin, f.destination, TimeOfDay(f.departureTime),
                  TimeOfDay(f.departureTime), f.price + "€"];
    LineEnds(cells);
    Line(cells)
  }

  /** `Flight.__str__` as evidently intended: departure time, then arrival time. */
  function FlightToStringIntended(f: Flight): (r: string)
    ensures |r| >= |f.number| && r[..|f.number|] == f.number
    ensures |r| > |f.price| && r[|r| - |f.price| - 1..] == f.price + "€"
  {
    var cells := [f.number, f.origin, f.destination, TimeOfDay(f.departureTime),
                  TimeOfDay(f.arrivalTime), f.price + "€"];
    LineEnds(cells);
    Line(cells)
  }

  predicate NoBar(s: string) {
    '|' !in s
  }

  /** The pieces `str.split("|")` makes of `lead + Line(cells)`: each cell keeps
      the spaces that surround the bars. */
  function Columns(lead: string, cells: seq<string>): (r: seq<string>)
    requires |cells| >= 1
    decreases |cells|
  {
    if |cells| == 1 then [lead + cells[0]]
    else [lead + cells[0] + " "] + Columns(" ", cells[1..])
  }

  /** Splitting a line of bar-free cells on `|` gives back one column per cell. */
  lemma {:induction false} SplitLine(lead: string, cells: seq<string>)
    requires |cells| >= 1 && NoBar(lead)
    requires forall i :: 0 <= i < |cells| ==> NoBar(cells[i])
    ensures Split(lead + Line(cells), '|') == Columns(lead, cells)
    decreases |cells|
  {
    if |cells| == 1 {
      SplitNoDelimiter(lead + cells[0], '|');
    } else {
      var rest := cells[1..];
      assert lead + Line(cells) == (lead + cells[0] + " ") + ['|'] + (" " + Line(rest));
      SplitPrefix(lead + cells[0] + " ", '|', " " + Line(rest));
      SplitLine(" ", rest);
    }
  }

  /** Column `k` is cell `k` with a space on each side that touches a bar. */
  lemma {:induction false} ColumnAt(lead: string, cells: seq<string>, k: nat)
    requires k < |cells|
    ensures |Columns(lead, cells)| == |cells|
    ensures k + 1 < |cells| ==> Columns(lead, cells)[k] == (if k == 0 then lead else " ") + cells[k] + " "
    ensures k + 1 == |cells| ==> Columns(lead, cells)[k] == (if k == 0 then lead else " ") + cells[k]
    decreases |cells|
  {
    if |cells| > 1 {
      if k == 0 {
        ColumnAt(" ", cells[1..], 0);
      } else {
        ColumnAt(" ", cells[1..], k - 1);
      }
    }
  }

  lemma TimeOfDayNoBar(t: Instant)
    ensures NoBar(TimeOfDay(t))
  {
    var r := TimeOfDay(t);
    TimeOfDayFields(t);
    assert r == r[..2] + [r[2]] + r[3..];
  }

  lemma IsoDateNoBar(d: CalendarDate)
    ensures NoBar(IsoDate(d))
  {
    var r := IsoDate(d);
    IsoDateFields(d);
    assert r == r[..4] + [r[4]] + r[5..7] + [r[7]] + r[8..];
  }

  /** The six columns of `Flight.__str__` as written: number, origin, destination,
      then the departure time twice, then the price followed by the euro sign. */
  lemma FlightColumns(f: Flight)
    requires NoBar(f.number) && NoBar(f.origin) && NoBar(f.destination) && NoBar(f.price)
    ensures var columns := Split(FlightToString(f), '|');
      && |columns| == 6
      && columns[0] == f.number + " " && columns[1] == " " + f.origin + " "
      && columns[2] == " " + f.destination + " "
      && columns[3] == " " + TimeOfDay(f.departureTime) + " "
      && columns[4] == " " + TimeOfDay(f.departureTime) + " "
      && columns[5] == " " + (f.price + "€")
  {
    var cells := [f.number, f.origin, f.destination, TimeOfDay(f.departureTime),
                  TimeOfDay(f.departureTime), f.price + "€"];
    TimeOfDayNoBar(f.departureTime);
    assert NoBar(f.price + "€");
    assert "" + Line(cells) == FlightToString(f);
    SplitLine("", cells);
    ColumnAt("", cells, 0);
    ColumnAt("", cells, 1);
    ColumnAt("", cells, 2);
    ColumnAt("", cells, 3);
    ColumnAt("", cells, 4);
    ColumnAt("", cells, 5);
    assert "" + f.number + " " == f.number + " ";
  }

  /** The defect the as-written rendering has: two flights that differ only in
      their arrival time print the same line. */
  lemma FlightToStringIgnoresArrival(f: Flight, arrival: Instant)
    requires arrival != f.arrivalTime
    ensures f.(arrivalTime := arrival) != f
    ensures FlightToString(f.(arrivalTime := arrival)) == FlightToString(f)
  {
  }

  /** The intended rendering shows the arrival time in the fifth column. */
  lemma IntendedFlightColumns(f: Flight)
    requires NoBar(f.number) && NoBar(f.origin) && NoBar(f.destination) && NoBar(f.price)
    ensures var columns := Split(FlightToStringIntended(f), '|');
      && |columns| == 6
      && columns[3] == " " + TimeOfDay(f.departureTime) + " "
      && columns[4] == " " + TimeOfDay(f.arrivalTime) + " "
  {
    var cells := [f.number, f.origin, f.destination, TimeOfDay(f.departureTime),
                  TimeOfDay(f.arrivalTime), f.price + "€"];
    TimeOfDayNoBar(f.departureTime);
    TimeOfDayNoBar(f.arrivalTime);
    assert NoBar(f.price + "€");
    assert "" + Line(cells) == FlightToStringIntended(f);
    SplitLine("", cells);
    ColumnAt("", cells, 3);
    ColumnAt("", cells, 4);
  }

  /** With the correction, flights whose arrival times differ in hour or minute
      print different lines. */
  lemma IntendedShowsArrival(f: Flight, arrival: Instant)
    requires NoBar(f.number) && NoBar(f.origin) && NoBar(f.destination) && NoBar(f.price)
    requires arrival.hour != f.arrivalTime.hour || arrival.minute != f.arrivalTime.minute
    ensures FlightToStringIntended(f.(arrivalTime := arrival)) != FlightToStringIntended(f)
  {
    var g := f.(arrivalTime := arrival);
    IntendedFlightColumns(f);
    IntendedFlightColumns(g);
    var before, after := TimeOfDay(f.arrivalTime), TimeOfDay(arrival);
    TimeOfDayFields(f.arrivalTime);
    TimeOfDayFields(arrival);
    assert before != after;
    assert (" " + before + " ")[1..6] != (" " + after + " ")[1..6];
  }

  /** The four columns of `Travel.__str__`. */
  lemma TravelColumns(t: Travel)
    requires NoBar(t.origin) && NoBar(t.destination)
    ensures var columns := Split(TravelToString(t), '|');
      && |columns| == 4
      && columns[0] == t.origin + " " && columns[1] == " " + t.destination + " "
      && columns[2] == " " + IsoDate(t.departureDate) + " "
      && columns[3] == " " + IsoDate(t.returnDate)
  {
    var cells := [t.origin, t.destination, IsoDate(t.departureDate), IsoDate(t.returnDate)];
    IsoDateNoBar(t.departureDate);
    IsoDateNoBar(t.returnDate);
    assert "" + Line(cells) == TravelToString(t);
    SplitLine("", cells);
    ColumnAt("", cells, 0);
    ColumnAt("", cells, 1);
    ColumnAt("", cells, 2);
    ColumnAt("", cells, 3);
    assert "" + t.origin + " " == t.origin + " ";
  }
}
