/** `TransaviaConnector.deserialize_flight_button`: the decoder for the
    `|`/`~`-delimited payload a flight-result button carries in its `value`. */
module Payload {
  import opened Wrappers
  import opened Text
  import opened Calendar
  import opened Records

  /** A flight-result button: its `value` attribute and the text of its
      `div.price` child. */
  datatype Button = Button(value: string, priceText: string)

  /** The exceptions the decoder can raise: an `IndexError` from `split("|")[1]`,
      an `IndexError` from indexing the field list, a `ValueError` from `strptime`. */
  datatype DecodeError = MalformedPayload | InsufficientFields | BadTimestamp

  /** `value.split("|")[1]`: the text between the first and the second `|`, or to
      the end when there is no second `|`; `None` for the `IndexError` raised when
      there is no `|` at all. */
  function SecondSegment(value: string): (r: Option<string>)
    ensures r.None? <==> '|' !in value
    ensures r.Some? ==> '|' !in r.value
  {
    var segments := Split(value, '|');
    if |segments| < 2 then None else Some(segments[1])
  }

  /** The text before the first `|` and everything from the second `|` on never
      reach the decoder: whatever `prefix` and `tail` are, the second segment is
      `segment`. */
  lemma SecondSegmentIsolated(prefix: string, segment: string, tail: string)
    requires '|' !in prefix && '|' !in segment
    requires tail == [] || tail[0] == '|'
    ensures SecondSegment(prefix + "|" + segment + tail) == Some(segment)
  {
    if tail == [] {
      assert prefix + "|" + segment + tail == prefix + "|" + segment;
      SplitPrefix(prefix, '|', segment);
      SplitNoDelimiter(segment, '|');
    } else {
      var rest := tail[1..];
      assert prefix + "|" + segment + tail == prefix + "|" + (segment + "|" + rest);
      SplitPrefix(prefix, '|', segment + "|" + rest);
      SplitPrefix(segment, '|', rest);
    }
  }

  /** The comprehension's condition `v and v not in [" "]`. */
  predicate Keep(field: string) {
    field != "" && field != " "
  }

  /** `[v for v in fields if v and v not in [" "]]`. */
  function Filter(fields: seq<string>): (r: seq<string>)
    ensures |r| <= |fields|
  {
    if fields == [] then []
    else (if Keep(fields[0]) then [fields[0]] else []) + Filter(fields[1..])
  }

  /** The filter keeps exactly the non-blank fields. */
  lemma {:induction false} FilterMembers(fields: seq<string>)
    ensures forall v :: v in Filter(fields) <==> v in fields && Keep(v)
  {
    if fields != [] {
      FilterMembers(fields[1..]);
      assert fields == [fields[0]] + fields[1..];
    }
  }

  /** Filtering a concatenation filters each part, keeping their order; together
      with the one-field case this says the filter keeps exactly the kept fields,
      in their original order. */
  lemma {:induction false} FilterAppend(xs: seq<string>, ys: seq<string>)
    ensures Filter(xs + ys) == Filter(xs) + Filter(ys)
  {
    if xs != [] {
      assert (xs + ys)[1..] == xs[1..] + ys;
      FilterAppend(xs[1..], ys);
    } else {
      assert xs + ys == ys;
    }
  }

  /** A list with no blank field passes the filter unchanged. */
  lemma {:induction false} FilterKeepsAll(fields: seq<string>)
    requires forall i :: 0 <= i < |fields| ==> Keep(fields[i])
    ensures Filter(fields) == fields
  {
    if fields != [] {
      FilterKeepsAll(fields[1..]);
    }
  }

  /** Filtering twice is filtering once. */
  lemma FilterIdempotent(fields: seq<string>)
    ensures Filter(Filter(fields)) == Filter(fields)
  {
    var r := Filter(fields);
    FilterMembers(fields);
    assert forall i :: 0 <= i < |r| ==> r[i] in r;
    FilterKeepsAll(r);
  }

  /** A blank placeholder anywhere in the list is dropped without a trace. */
  lemma FilterDropsBlank(xs: seq<string>, blank: string, ys: seq<string>)
    requires !Keep(blank)
    ensures Filter(xs + [blank] + ys) == Filter(xs + ys)
  {
    FilterAppend(xs + [blank], ys);
    FilterAppend(xs, [blank]);
    FilterAppend(xs, ys);
    assert Filter([blank]) == [] + Filter([]);
  }

  /** The list `parts` of the source: the second segment split on `~`, blanks removed. */
  function PayloadFields(value: string): (r: Option<seq<string>>)
    ensures r.None? <==> '|' !in value
  {
    match SecondSegment(value)
    case None => None
    case Some(segment) => Some(Filter(Split(segment, '~')))
  }

  /** Every field the decoder indexes is non-blank and free of both delimiters. */
  lemma PayloadFieldsClean(value: string)
    requires '|' in value
    ensures var parts := PayloadFields(value).value;
      forall i :: 0 <= i < |parts| ==> Keep(parts[i]) && Delimited(parts[i])
  {
    var segment := SecondSegment(value).value;
    var pieces := Split(segment, '~');
    FilterMembers(pieces);
    var parts := Filter(pieces);
    forall i | 0 <= i < |parts|
      ensures Keep(parts[i]) && Delimited(parts[i])
    {
      assert parts[i] in parts;
      var k :| 0 <= k < |pieces| && pieces[k] == parts[i];
      assert '|' !in segment;
      SplitPiecesWithin(segment, '~', k);
    }
  }

  /** `deserialize_flight_button`: split, filter, then build the `Flight` from
      the fields by position; `DeserializeOutcome` states what it returns. */
  function DeserializeFlightButton(button: Button): (r: Result<Flight, DecodeError>)
    ensures r == Failure(MalformedPayload) <==> '|' !in button.value
    ensures r.Success? ==> r.value.price == button.priceText
  {
    match PayloadFields(button.value)
    case None => Failure(MalformedPayload)
    case Some(parts) =>
      if |parts| < 5 then Failure(InsufficientFields)
      else match StrToDateTime(parts[3])
        case None => Failure(BadTimestamp)
        case Some(departure) =>
          if |parts| < 6 then Failure(InsufficientFields)
          else match StrToDateTime(parts[5])
            case None => Failure(BadTimestamp)
            case Some(arrival) =>
              Success(Flight(parts[0] + parts[1], parts[2], parts[4], departure, arrival,
                button.priceText))
  }

  /** What the decoder returns. The keyword arguments of `Flight(...)` are
      evaluated in order: the number (never fails), `parts[2]`, `parts[4]`, the
      parse of `parts[3]`, then `parts[5]` and its parse; the first failure is the
      error. On success every field is the text at its position: the number is
      `parts[0] + parts[1]`, the timestamps are the datetimes whose formatting is
      `parts[3]` and `parts[5]`, and the price is the price text untouched. */
  lemma DeserializeOutcome(button: Button)
    ensures DeserializeFlightButton(button) == Failure(MalformedPayload) <==> '|' !in button.value
    ensures DeserializeFlightButton(button) == Failure(InsufficientFields) <==>
      var p := PayloadFields(button.value);
      p.Some? && (|p.value| < 5 || (|p.value| == 5 && StrToDateTime(p.value[3]).Some?))
    ensures DeserializeFlightButton(button) == Failure(BadTimestamp) <==>
      var p := PayloadFields(button.value);
      p.Some? && |p.value| >= 5
      && (StrToDateTime(p.value[3]).None? || (|p.value| >= 6 && StrToDateTime(p.value[5]).None?))
    ensures DeserializeFlightButton(button).Success? <==>
      var p := PayloadFields(button.value);
      p.Some? && |p.value| >= 6
      && StrToDateTime(p.value[3]).Some? && StrToDateTime(p.value[5]).Some?
    ensures DeserializeFlightButton(button).Success? ==>
      var flight := DeserializeFlightButton(button).value;
      var parts := PayloadFields(button.value).value;
      && flight.number == parts[0] + parts[1]
      && flight.origin == parts[2]
      && flight.destination == parts[4]
      && FormatDateTime(flight.departureTime) == parts[3]
      && FormatDateTime(flight.arrivalTime) == parts[5]
      && flight.price == button.priceText
  {
    if PayloadFields(button.value).Some? && |PayloadFields(button.value).value| >= 6 {
      var parts := PayloadFields(button.value).value;
      StrToDateTimeFormats(parts[3]);
      StrToDateTimeFormats(parts[5]);
    }
  }

  /** A button value built the way the site builds one: any prefix, `|`, the
      fields joined by `~`, then either nothing or a further `|`-segment. */
  function EncodeValue(prefix: string, fields: seq<string>, tail: string): (r: string)
    requires |fields| >= 1
  {
    prefix + "|" + Join(fields, '~') + tail
  }

  predicate Delimited(text: string) {
    '|' !in text && '~' !in text
  }

  /** Decoding recovers exactly the non-blank fields that were encoded. */
  lemma PayloadFieldsOfEncoded(prefix: string, fields: seq<string>, tail: string)
    requires '|' !in prefix
    requires |fields| >= 1 && forall i :: 0 <= i < |fields| ==> Delimited(fields[i])
    requires tail == [] || tail[0] == '|'
    ensures PayloadFields(EncodeValue(prefix, fields, tail)) == Some(Filter(fields))
  {
    var joined := Join(fields, '~');
    JoinExcludes(fields, '~', '|');
    SecondSegmentIsolated(prefix, joined, tail);
    SplitJoin(fields, '~');
  }

  /** The six positional fields of a flight offer. */
  function FlightFields(carrier: string, digits: string, origin: string, departure: Instant,
                        destination: string, arrival: Instant): (r: seq<string>)
  {
    [carrier, digits, origin, FormatDateTime(departure), destination, FormatDateTime(arrival)]
  }

  /** The decoding round trip: a payload whose first six non-blank fields are a
      flight's fields decodes to that flight, whatever the prefix, the blank
      placeholders, the fields after the sixth and the trailing segment are. */
  lemma DecodeEncoded(prefix: string, fields: seq<string>, tail: string, priceText: string,
                      carrier: string, digits: string, origin: string, departure: Instant,
                      destination: string, arrival: Instant)
    requires '|' !in prefix
    requires |fields| >= 1 && forall i :: 0 <= i < |fields| ==> Delimited(fields[i])
    requires tail == [] || tail[0] == '|'
    requires |Filter(fields)| >= 6
    requires Filter(fields)[..6] == FlightFields(carrier, digits, origin, departure, destination, arrival)
    ensures DeserializeFlightButton(Button(EncodeValue(prefix, fields, tail), priceText))
         == Success(Flight(carrier + digits, origin, destination, departure, arrival, priceText))
  {
    var button := Button(EncodeValue(prefix, fields, tail), priceText);
    PayloadFieldsOfEncoded(prefix, fields, tail);
    var parts := Filter(fields);
    var flight := FlightFields(carrier, digits, origin, departure, destination, arrival);
    assert parts[0] == flight[0] && parts[1] == flight[1] && parts[2] == flight[2];
    assert parts[3] == flight[3] && parts[4] == flight[4] && parts[5] == flight[5];
    ParseFormat(departure);
    ParseFormat(arrival);
    DecodeOfParts(button, parts, departure, arrival);
  }

  /** Once the field list is known, decoding only reads its first six entries. */
  lemma DecodeOfParts(button: Button, parts: seq<string>, departure: Instant, arrival: Instant)
    requires PayloadFields(button.value) == Some(parts) && |parts| >= 6
    requires StrToDateTime(parts[3]) == Some(departure) && StrToDateTime(parts[5]) == Some(arrival)
    ensures DeserializeFlightButton(button)
         == Success(Flight(parts[0] + parts[1], parts[2], parts[4], departure, arrival, button.priceText))
  {
  }

  /** The plain case: exactly the six fields, no blanks, no trailing segment. */
  lemma DecodeFlightFields(prefix: string, priceText: string, carrier: string, digits: string,
                           origin: string, departure: Instant, destination: string, arrival: Instant)
    requires '|' !in prefix
    requires Delimited(carrier) && Delimited(digits) && Delimited(origin) && Delimited(destination)
    requires Keep(carrier) && Keep(digits) && Keep(origin) && Keep(destination)
    ensures var fields := FlightFields(carrier, digits, origin, departure, destination, arrival);
      DeserializeFlightButton(Button(EncodeValue(prefix, fields, ""), priceText))
      == Success(Flight(carrier + digits, origin, destination, departure, arrival, priceText))
  {
    var fields := FlightFields(carrier, digits, origin, departure, destination, arrival);
    FormattedIsField(departure);
    FormattedIsField(arrival);
    assert forall i :: 0 <= i < 6 ==> Keep(fields[i]) && Delimited(fields[i]) by {
      assert fields[3] == FormatDateTime(departure) && fields[5] == FormatDateTime(arrival);
    }
    FilterKeepsAll(fields);
    assert Filter(fields)[..6] == fields;
    DecodeEncoded(prefix, fields, "", priceText, carrier, digits, origin, departure, destination, arrival);
  }

  /** A formatted timestamp is a non-blank field free of both delimiters. */
  lemma FormattedIsField(t: Instant)
    ensures Keep(FormatDateTime(t)) && Delimited(FormatDateTime(t))
  {
    var s := FormatDateTime(t);
    ParseFormat(t);
    assert TimestampShaped(s);
    assert s == s[0..2] + [s[2]] + s[3..5] + [s[5]] + s[6..10] + [s[10]] + s[11..13] + [s[13]] + s[14..16];
  }

  /** The payload `X|AB~12~Paris~21/10/2021 08:30~Amsterdam~21/10/2021 10:15`
      decodes to flight AB12 (the two first fields concatenated) from Paris to
      Amsterdam on 21 October 2021, 08:30 to 10:15. */
  lemma DecodeExample(departure: Instant, arrival: Instant)
    requires departure == DateTime(Date(2021, 10, 21), 8, 30)
    requires arrival == DateTime(Date(2021, 10, 21), 10, 15)
    ensures DeserializeFlightButton(Button(EncodeValue("X",
              ["AB", "12", "Paris", "21/10/2021 08:30", "Amsterdam", "21/10/2021 10:15"], ""), "59"))
         == Success(Flight("AB" + "12", "Paris", "Amsterdam", departure, arrival, "59"))
  {
    FormatExamples();
    assert FlightFields("AB", "12", "Paris", departure, "Amsterdam", arrival)
        == ["AB", "12", "Paris", "21/10/2021 08:30", "Amsterdam", "21/10/2021 10:15"];
    DecodeFlightFields("X", "59", "AB", "12", "Paris", departure, "Amsterdam", arrival);
  }
}
