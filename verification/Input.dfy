/**
 What master/config.cc makes of its input: the capacities of the access points, padded to their
 number, and the records that say which application a terminal runs and where it attaches.
 */
module Input {
  import opened Wrappers
  import opened Text
  import Access

  const DEFAULT_CAPACITY := 100

  function Repeat(n: nat, value: int): seq<int> { seq(n, _ => value) }

  /** Reads the list, if the file has one, and makes it at least as long as there are base
      stations; a list that turns out empty is treated like a missing one.  captured is the text
      between the brackets. */
  method LoadCapacities(captured: Option<string>, baseStations: nat) returns (capacities: Result<seq<int>, NumberError>)
    ensures capacities == match captured
                          case None => Ok(Repeat(baseStations, DEFAULT_CAPACITY))
                          case Some(text) => PaddedTo(Numbers(Fields(text, ',')), baseStations)
    ensures captured.None? ==> capacities == Ok(seq(baseStations, _ => 100))
    ensures captured.Some? ==> (capacities.Ok? <==> Numbers(Fields(captured.value, ',')).Ok?)
    ensures captured.Some? && capacities.Ok? ==>
              var list := Numbers(Fields(captured.value, ',')).value;
              && |capacities.value| == (if |list| < baseStations then baseStations else |list|)
              && forall k | 0 <= k < |capacities.value| ::
                   capacities.value[k] == if k < |list| then list[k] else 100
  {
    hide Numbers, Fields;
    var found, list := false, [];
    if captured.Some? {
      var out;
      found, out := ExtractJsonArrayInt(captured.value);
      if out.Err? {
        return out;
      }
      list := out.value;
    }
    if !found {
      list := Repeat(baseStations, DEFAULT_CAPACITY);
      assert captured.Some? ==> [] + list == list;
    }
    if |list| < baseStations {
      list := list + Repeat(baseStations - |list|, DEFAULT_CAPACITY);
    }
    return Ok(list);
  }

  function PaddedTo(list: Result<seq<int>, NumberError>, n: nat): Result<seq<int>, NumberError> {
    if list.Err? || |list.value| >= n then list
    else Ok(list.value + Repeat(n - |list.value|, DEFAULT_CAPACITY))
  }

  /** Every base station has a capacity: the one printed for it, or 100. */
  lemma CapacitiesAreAsPrinted(numbers: seq<int>, before: seq<string>, after: seq<string>, baseStations: nat)
    requires numbers != [] && |before| == |after| == |numbers|
    requires forall k | 0 <= k < |numbers| :: IsInt(numbers[k]) && Blank(before[k]) && Blank(after[k])
    ensures var r := PaddedTo(Numbers(Fields(Join(Padded(numbers, before, after), ','), ',')), baseStations);
            && r.Ok? && |r.value| >= baseStations && |r.value| >= |numbers|
            && (forall k | 0 <= k < |numbers| :: r.value[k] == numbers[k])
            && (forall k | |numbers| <= k < |r.value| :: r.value[k] == 100)
  {
    hide Numbers, Fields;
    ListRoundTrip(numbers, before, after);
  }

  // ---------- terminal records ----------

  /** What reading a field into an int that was never set leaves there: nothing is stored when the
      field has no character but white space, 0 when it is no number, the nearest limit when it is
      out of range. */
  datatype Slot = Stored(value: int) | Indeterminate

  datatype Record = Record(useAppli: Slot, apNo: Slot)

  function ReadInt(s: string): Slot {
    if SkipSpace(s) == "" then Indeterminate else
      match Stoi(s)
      case Ok(n) => Stored(n)
      case Err(InvalidArgument) => Stored(0)
      case Err(OutOfRange) => Stored(if SkipSpace(s)[0] == '-' then INT_MIN else INT_MAX)
  }

  /** What a field stores: 0 for what is no number, the limit on the sign's side for a number that is too
      large, the number otherwise; white space alone stores nothing. */
  lemma {:induction false} ReadIntStores(s: string) returns (space: string, sign: string, digits: string, rest: string)
    ensures FallsInto(s, space, sign, digits, rest)
    ensures var n := (if sign == "-" then -1 else 1) * Value(digits);
            ReadInt(s) ==
            if s == space then Indeterminate
            else if digits == "" then Stored(0)
            else Stored(if n < -0x8000_0000 then -0x8000_0000 else if n > 0x7FFF_FFFF then 0x7FFF_FFFF else n)
  {
    hide Value, Stoi;
    space, sign, digits, rest := StoiReads(s);
    SkippedIs(s, space, sign + digits + rest);
  }

  lemma {:induction false} SkippedIs(s: string, space: string, t: string)
    requires s == space + t && WhiteSpace(space) && (t == "" || !IsSpace(t[0]))
    ensures SkipSpace(s) == t
  {
    if space == "" {
      assert s == t;
    } else {
      assert s[1..] == space[1..] + t;
      SkippedIs(s[1..], space[1..], t);
    }
  }

  /** Runs 1 and 2 read coordinates too. */
  function FieldsNeeded(nth: int): nat { if nth == 1 || nth == 2 then 5 else 3 }

  /** One line per terminal; a missing field ends the program with an exception. */
  method ReadRecords(lines: seq<string>, nth: int) returns (data: Result<seq<Record>, string>)
    ensures data.Ok? <==> forall k | 0 <= k < |lines| ::
                           |Fields(lines[k], ' ')| >= if nth == 1 || nth == 2 then 5 else 3
    ensures data.Ok? ==> |data.value| == |lines|
    ensures data.Ok? ==>
              forall k | 0 <= k < |lines| ::
                data.value[k] == Record(ReadInt(Fields(lines[k], ' ')[1]), ReadInt(Fields(lines[k], ' ')[2]))
  {
    hide Fields, ReadInt;
    var records: seq<Record> := [];
    for k := 0 to |lines|
      invariant |records| == k
      invariant forall i | 0 <= i < k ::
                  && |Fields(lines[i], ' ')| >= FieldsNeeded(nth)
                  && records[i] == Record(ReadInt(Fields(lines[i], ' ')[1]), ReadInt(Fields(lines[i], ' ')[2]))
    {
      var ret := Split(lines[k], ' ');
      if |ret| < 3 || ((nth == 1 || nth == 2) && |ret| < 5) {
        return Err("out_of_range");
      }
      records := records + [Record(ReadInt(ret[1]), ReadInt(ret[2]))];
    }
    return Ok(records);
  }

  /** A record: something, the two numbers, and possibly more fields. */
  function PrintRecord(first: string, d: Access.TermData, more: seq<string>): string {
    Join([first, Decimal(d.useAppli), Decimal(d.apNo)] + more, ' ')
  }

  /** Two blanks in a row make an empty field, and a number read from it is never set: the line
      "t  1 2" leaves the application of its terminal indeterminate. */
  lemma {:induction false} DoubledBlankLeavesIndeterminate(first: string, more: seq<string>)
    requires ' ' !in first && Free(more, ' ') && more != [] && more[|more| - 1] != ""
    ensures var fields := Fields(Join([first, ""] + more, ' '), ' ');
            |fields| == 2 + |more| && ReadInt(fields[1]) == Indeterminate
  {
    FieldsOfJoin([first, ""] + more, ' ');
  }

  /** A printed record has the fields it was printed from, and its numbers are read back. */
  lemma RecordRoundTrip(first: string, d: Access.TermData, more: seq<string>)
    requires ' ' !in first && Free(more, ' ') && (more != [] ==> more[|more| - 1] != "")
    requires IsInt(d.useAppli) && IsInt(d.apNo)
    ensures var fields := Fields(PrintRecord(first, d, more), ' ');
            && |fields| == 3 + |more|
            && Record(ReadInt(fields[1]), ReadInt(fields[2])) == Record(Stored(d.useAppli), Stored(d.apNo))
  {
    hide Fields, Join, Decimal, Stoi;
    DecimalIsTrimmed(d.useAppli);
    DecimalIsTrimmed(d.apNo);
    FieldsOfJoin([first, Decimal(d.useAppli), Decimal(d.apNo)] + more, ' ');
    StoiOfDecimal(d.useAppli, "");
    StoiOfDecimal(d.apNo, "");
    NotBlank(d.useAppli);
    NotBlank(d.apNo);
    assert Decimal(d.useAppli) + "" == Decimal(d.useAppli) && Decimal(d.apNo) + "" == Decimal(d.apNo);
  }

  lemma NotBlank(n: int)
    ensures SkipSpace(Decimal(n)) != ""
  {
    DecimalIsTrimmed(n);
  }
}
