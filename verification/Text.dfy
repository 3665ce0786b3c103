/**
 The text handling of master/config.cc and master/NetSim.h: the splitter built on getline, trimming,
 and the list of integers inside a JSON array, each against a printer.
 */
module Text {
  import opened Wrappers

  // ---------- splitting ----------

  /** How many characters precede the first delimiter. */
  function UpTo(s: string, d: char): (k: nat)
    ensures k <= |s| && d !in s[..k] && (k < |s| ==> s[k] == d)
  {
    if s == [] || s[0] == d then 0 else
      assert s == [s[0]] + s[1..];
      1 + UpTo(s[1..], d)
  }

  lemma {:induction false} UpToIs(s: string, d: char, k: nat)
    requires k <= |s| && d !in s[..k] && (k < |s| ==> s[k] == d)
    ensures UpTo(s, d) == k
  {
    if k > 0 {
      assert s[..k][0] == s[0];
      assert s[1..][..k - 1] == s[..k][1..];
      UpToIs(s[1..], d, k - 1);
    }
  }

  /** The fields of a text.  There is no field after a delimiter that ends the text. */
  function Fields(s: string, d: char): seq<string> {
    if s == [] then [] else
      var k := UpTo(s, d);
      [s[..k]] + if k == |s| then [] else Fields(s[k + 1..], d)
  }

  lemma {:induction false} FieldsStep(s: string, d: char, k: nat)
    requires s != "" && k <= |s| && d !in s[..k] && (k < |s| ==> s[k] == d)
    ensures Fields(s, d) == if k == |s| then [s] else [s[..k]] + Fields(s[k + 1..], d)
  {
    assert s[..|s|] == s;
    UpToIs(s, d, k);
  }

  /** Reading on from a position; it fails when nothing is left. */
  method GetLine(input: string, pos: nat, d: char) returns (ok: bool, field: string, next: nat)
    requires pos <= |input|
    ensures pos <= next <= |input| && (ok <==> pos < |input|) && (ok <==> pos < next)
    ensures ok ==> Fields(input[pos..], d) == [field] + Fields(input[next..], d)
  {
    hide Fields;
    ok, field, next := pos < |input|, "", pos;
    while next < |input| && input[next] != d
      invariant pos <= next <= |input| && field == input[pos..next] && d !in field
    {
      field := field + [input[next]];
      next := next + 1;
    }
    if ok {
      ghost var s, k := input[pos..], next - pos;
      assert s[..k] == field && (if k < |s| then s[k + 1..] == input[next + 1..] else s == field);
      FieldsStep(s, d, k);
      NoFieldsLeft(input, d);
      assert [field] + [] == [field];
    }
    if next < |input| {
      next := next + 1;
    }
  }

  lemma {:induction false} NoFieldsLeft(s: string, d: char)
    ensures Fields(s[|s|..], d) == []
  {}

  method Split(input: string, delimiter: char) returns (result: seq<string>)
    ensures result == Fields(input, delimiter)
  {
    result := [];
    var pos, ok := 0, true;
    while ok
      invariant pos <= |input| && (!ok ==> pos == |input|)
      invariant result + Fields(input[pos..], delimiter) == Fields(input, delimiter)
      decreases |input| - pos, ok
    {
      var field, next;
      ok, field, next := GetLine(input, pos, delimiter);
      if ok {
        assert result + ([field] + Fields(input[next..], delimiter)) ==
               result + [field] + Fields(input[next..], delimiter);
        result := result + [field];
      }
      pos := next;
    }
  }

  function Join(fields: seq<string>, d: char): string {
    if fields == [] then "" else if |fields| == 1 then fields[0] else fields[0] + [d] + Join(fields[1..], d)
  }

  ghost predicate Free(fields: seq<string>, d: char) { forall k | 0 <= k < |fields| :: d !in fields[k] }

  lemma {:induction false} JoinStep(f: string, rest: seq<string>, d: char)
    requires rest != []
    ensures Join([f] + rest, d) == f + [d] + Join(rest, d)
  {
    assert ([f] + rest)[1..] == rest;
  }

  lemma {:induction false} FieldsExist(s: string, d: char)
    ensures Fields(s, d) == [] <==> s == ""
    ensures Join([s], d) == s && Join([], d) == ""
  {}

  /** What a delimiter at the end of the text adds. */
  function Tail(s: string, d: char): string {
    if s != "" && s[|s| - 1] == d then [d] else ""
  }

  /** No field contains the delimiter, and joining the fields gives the text back, but for a
      delimiter at its very end. */
  lemma {:induction false} JoinOfFields(s: string, d: char)
    ensures Free(Fields(s, d), d)
    ensures s == Join(Fields(s, d), d) + Tail(s, d)
    decreases |s|
  {
    hide Fields, Join;
    FieldsExist(s, d);
    var k := UpTo(s, d);
    FieldsExist(s[..k], d);
    if s != "" {
      FieldsStep(s, d, k);
      if k < |s| {
        var rest := s[k + 1..];
        JoinOfFields(rest, d);
        FieldsExist(rest, d);
        assert s == s[..k] + [d] + rest;
        if rest != "" {
          JoinStep(s[..k], Fields(rest, d), d);
          assert Tail(s, d) == Tail(rest, d);
        } else {
          assert Fields(s, d) == [s[..k]];
        }
      }
    }
  }

  /** A list of fields without delimiters is read back, except that an empty last field is lost. */
  lemma {:induction false} FieldsOfJoin(fields: seq<string>, d: char)
    requires fields != [] && Free(fields, d)
    ensures Fields(Join(fields, d), d) == if fields[|fields| - 1] == "" then fields[..|fields| - 1] else fields
  {
    hide Fields, Join;
    var f, rest := fields[0], fields[1..];
    assert fields == [f] + rest;
    FieldsExist(f, d);
    if rest == [] {
      assert fields == [f] && fields[..0] == [];
      if f != "" {
        FieldsStep(f, d, |f|);
      }
    } else {
      FieldsOfJoin(rest, d);
      JoinStep(f, rest, d);
      var s := f + [d] + Join(rest, d);
      assert s[..|f|] == f && s[|f| + 1..] == Join(rest, d);
      FieldsStep(s, d, |f|);
      assert rest[|rest| - 1] == fields[|fields| - 1];
      assert [f] + rest[..|rest| - 1] == fields[..|fields| - 1];
    }
  }

  /** So the round trip succeeds exactly for lists whose last field is not empty. */
  lemma {:induction false} SplitRoundTrip(fields: seq<string>, d: char)
    requires fields != [] && Free(fields, d)
    ensures Fields(Join(fields, d), d) == fields <==> fields[|fields| - 1] != ""
  {
    FieldsOfJoin(fields, d);
  }

  // ---------- trimming ----------

  predicate IsBlank(c: char) { c in {' ', '\t', '\n', '\r'} }

  predicate Blank(s: string) { forall k | 0 <= k < |s| :: IsBlank(s[k]) }

  function FirstNonBlank(s: string): (k: nat)
    ensures k <= |s| && Blank(s[..k]) && (k < |s| ==> !IsBlank(s[k]))
  {
    if s == "" || !IsBlank(s[0]) then 0 else
      assert s == [s[0]] + s[1..];
      1 + FirstNonBlank(s[1..])
  }

  /** One past the last character that is not blank. */
  function EndNonBlank(s: string): (k: nat)
    ensures k <= |s| && Blank(s[k..]) && (k > 0 ==> !IsBlank(s[k - 1]))
  {
    if s == "" || !IsBlank(s[|s| - 1]) then |s| else EndNonBlank(s[..|s| - 1])
  }

  lemma {:induction false} FirstNonBlankIs(s: string, k: nat)
    requires k <= |s| && Blank(s[..k]) && (k < |s| ==> !IsBlank(s[k]))
    ensures FirstNonBlank(s) == k
  {
    if k > 0 {
      assert IsBlank(s[..k][0]);
      assert s[1..][..k - 1] == s[..k][1..];
      FirstNonBlankIs(s[1..], k - 1);
    }
  }

  lemma {:induction false} EndNonBlankIs(s: string, k: nat)
    requires k <= |s| && Blank(s[k..]) && (k > 0 ==> !IsBlank(s[k - 1]))
    ensures EndNonBlank(s) == k
  {
    if k < |s| {
      assert IsBlank(s[k..][|s| - 1 - k]);
      assert s[..|s| - 1][k..] == s[k..][..|s| - 1 - k];
      EndNonBlankIs(s[..|s| - 1], k);
    }
  }

  lemma {:induction false} FirstBeforeEnd(s: string)
    requires FirstNonBlank(s) < |s|
    ensures FirstNonBlank(s) < EndNonBlank(s)
  {
    var front, k := s[..|s| - 1], FirstNonBlank(s);
    if IsBlank(s[|s| - 1]) {
      assert front[..k] == s[..k];
      FirstNonBlankIs(front, k);
      FirstBeforeEnd(front);
    }
  }

  function Trim(s: string): string {
    var begin := FirstNonBlank(s);
    if begin == |s| then "" else
      FirstBeforeEnd(s);
      s[begin..EndNonBlank(s)]
  }

  predicate Trimmed(t: string) { t == "" || (!IsBlank(t[0]) && !IsBlank(t[|t| - 1])) }

  /** Trimming only takes blanks away, from both ends and completely. */
  lemma TrimTakesBlanks(s: string) returns (a: string, b: string)
    ensures s == a + Trim(s) + b && Blank(a) && Blank(b) && Trimmed(Trim(s))
  {
    hide FirstNonBlank, EndNonBlank;
    var begin := FirstNonBlank(s);
    if begin == |s| {
      a, b := s, "";
    } else {
      FirstBeforeEnd(s);
      a, b := s[..begin], s[EndNonBlank(s)..];
    }
  }

  /** And it undoes any padding with blanks. */
  lemma TrimUndoesPadding(a: string, t: string, b: string)
    requires Blank(a) && Blank(b) && Trimmed(t)
    ensures Trim(a + t + b) == t
  {
    hide FirstNonBlank, EndNonBlank;
    var s := a + t + b;
    if t == "" {
      FirstNonBlankIs(s, |s|);
    } else {
      assert s[..|a|] == a && s[|a|] == t[0];
      FirstNonBlankIs(s, |a|);
      assert s[|a| + |t|..] == b && s[|a| + |t| - 1] == t[|t| - 1];
      EndNonBlankIs(s, |a| + |t|);
      assert s[|a|..|a| + |t|] == t;
    }
  }

  /** Trimming takes blanks, tabs, line feeds and carriage returns away, and nothing else. */
  lemma TrimmedCharacters(c: char)
    ensures Trim([c]) == "" <==> c == ' ' || c == '\t' || c == '\n' || c == '\r'
    ensures Trim([c]) != "" ==> Trim([c]) == [c]
  {
    if IsBlank(c) {
      TrimUndoesPadding([c], "", "");
      assert [c] + "" + "" == [c];
    } else {
      TrimUndoesPadding("", [c], "");
      assert "" + [c] + "" == [c];
    }
  }

  // ---------- numbers ----------

  const INT_MIN := -0x8000_0000
  const INT_MAX := 0x7FFF_FFFF

  predicate IsInt(n: int) { INT_MIN <= n <= INT_MAX }

  predicate IsDigit(c: char) { '0' <= c <= '9' }

  function DigitValue(c: char): nat
    requires IsDigit(c)
  {
    c as int - '0' as int
  }

  /** The value of a run of digits. */
  function Value(s: string): nat
    requires forall k | 0 <= k < |s| :: IsDigit(s[k])
  {
    if s == "" then 0 else 10 * Value(s[..|s| - 1]) + DigitValue(s[|s| - 1])
  }

  function DigitRun(s: string): (k: nat)
    ensures k <= |s| && (forall i | 0 <= i < k :: IsDigit(s[i])) && (k < |s| ==> !IsDigit(s[k]))
  {
    if s == "" || !IsDigit(s[0]) then 0 else 1 + DigitRun(s[1..])
  }

  /** White space in the sense of the C library. */
  predicate IsSpace(c: char) { IsBlank(c) || c == '\U{0B}' || c == '\U{0C}' }

  function SkipSpace(s: string): string {
    if s != "" && IsSpace(s[0]) then SkipSpace(s[1..]) else s
  }

  datatype NumberError = InvalidArgument | OutOfRange

  /** std::stoi: white space, a sign, digits; what follows the digits is ignored. */
  function Stoi(s: string): Result<int, NumberError> {
    var t := SkipSpace(s);
    if t != "" && t[0] == '-' then Signed(-1, t[1..])
    else if t != "" && t[0] == '+' then Signed(1, t[1..])
    else Signed(1, t)
  }

  function Signed(sign: int, s: string): Result<int, NumberError> {
    var k := DigitRun(s);
    if k == 0 then Err(InvalidArgument) else
      var n := sign * Value(s[..k]);
      if IsInt(n) then Ok(n) else Err(OutOfRange)
  }

  function Digits(n: nat): (s: string)
    ensures s != "" && forall k | 0 <= k < |s| :: IsDigit(s[k])
    ensures Value(s) == n
  {
    var last := (n % 10 + '0' as int) as char;
    if n < 10 then [last] else
      var front := Digits(n / 10);
      assert (front + [last])[..|front|] == front;
      front + [last]
  }

  function Decimal(n: int): string {
    if n < 0 then "-" + Digits(-n) else Digits(n)
  }

  lemma {:induction false} DigitRunIs(s: string, k: nat)
    requires k <= |s| && (forall i | 0 <= i < k :: IsDigit(s[i])) && (k < |s| ==> !IsDigit(s[k]))
    ensures DigitRun(s) == k
  {
    if k > 0 {
      DigitRunIs(s[1..], k - 1);
    }
  }

  /** A printed number is read back, whatever follows it. */
  lemma StoiOfDecimal(n: int, rest: string)
    requires IsInt(n) && (rest == "" || !IsDigit(rest[0]))
    ensures Stoi(Decimal(n) + rest) == Ok(n)
  {
    hide Value, Digits, Signed;
    var digits := Digits(if n < 0 then -n else n);
    var t := digits + rest;
    assert IsDigit(t[0]);
    SignedOfDigits(if n < 0 then -1 else 1, if n < 0 then -n else n, rest);
    if n < 0 {
      var u := Decimal(n) + rest;
      assert u == ['-'] + t && u[1..] == t;
    } else {
      assert Decimal(n) + rest == t;
    }
  }

  lemma {:induction false} SignedOfDigits(sign: int, n: nat, rest: string)
    requires IsInt(sign * n) && (rest == "" || !IsDigit(rest[0]))
    ensures Signed(sign, Digits(n) + rest) == Ok(sign * n)
  {
    hide Value, Digits;
    var digits := Digits(n);
    DigitRunIs(digits + rest, |digits|);
    assert (digits + rest)[..|digits|] == digits;
  }

  /** The six characters of white space in the C locale. */
  ghost predicate WhiteSpace(s: string) {
    forall k | 0 <= k < |s| :: s[k] in {' ', '\t', '\n', '\r', '\U{0B}', '\U{0C}'}
  }

  ghost predicate AllDigits(s: string) { forall k | 0 <= k < |s| :: '0' <= s[k] <= '9' }

  /** How a text falls into white space, a sign or none, digits and the rest. */
  ghost predicate FallsInto(s: string, space: string, sign: string, digits: string, rest: string) {
    && s == space + sign + digits + rest && WhiteSpace(space) && AllDigits(digits)
    && sign in {"", "+", "-"}
    && (sign == "" ==> digits + rest == "" || !((digits + rest)[0] in
                         {' ', '\t', '\n', '\r', '\U{0B}', '\U{0C}', '+', '-'}))
    && (rest == "" || !('0' <= rest[0] <= '9'))
  }

  lemma {:induction false} SkipSpaceIs(s: string) returns (space: string)
    ensures s == space + SkipSpace(s) && WhiteSpace(space)
    ensures SkipSpace(s) == "" || !IsSpace(SkipSpace(s)[0])
  {
    if s != "" && IsSpace(s[0]) {
      var more := SkipSpaceIs(s[1..]);
      space := [s[0]] + more;
    } else {
      space := "";
    }
  }

  /** The digits a number starts with, and what follows them. */
  lemma {:induction false} DigitsFirst(u: string) returns (digits: string, rest: string)
    ensures u == digits + rest && AllDigits(digits) && (rest == "" || !('0' <= rest[0] <= '9'))
    ensures forall sign: int :: Signed(sign, u) ==
                           if digits == "" then Err(InvalidArgument)
                           else if -0x8000_0000 <= sign * Value(digits) <= 0x7FFF_FFFF then Ok(sign * Value(digits))
                           else Err(OutOfRange)
  {
    hide Value;
    digits, rest := u[..DigitRun(u)], u[DigitRun(u)..];
  }

  lemma {:induction false} SignFirst(t: string) returns (sign: string, u: string)
    ensures t == sign + u && sign in {"", "+", "-"}
    ensures sign == "" ==> u == t && (t == "" || (t[0] != '+' && t[0] != '-'))
    ensures forall s | SkipSpace(s) == t :: Stoi(s) == Signed(if sign == "-" then -1 else 1, u)
  {
    hide Signed;
    if t != "" && (t[0] == '-' || t[0] == '+') {
      sign, u := [t[0]], t[1..];
    } else {
      sign, u := "", t;
    }
  }

  /** Every text falls into these parts, and they decide what is read: without a digit it is no number;
      otherwise it is the value of the digits with the sign, if that is a 32-bit number. */
  lemma {:induction false} StoiReads(s: string) returns (space: string, sign: string, digits: string, rest: string)
    ensures FallsInto(s, space, sign, digits, rest)
    ensures Stoi(s) ==
            if digits == "" then Err(InvalidArgument)
            else
              var n := (if sign == "-" then -1 else 1) * Value(digits);
              if -0x8000_0000 <= n <= 0x7FFF_FFFF then Ok(n) else Err(OutOfRange)
  {
    hide Value, Stoi, Signed, SkipSpace;
    space := SkipSpaceIs(s);
    var u;
    sign, u := SignFirst(SkipSpace(s));
    digits, rest := DigitsFirst(u);
    assert space + sign + digits + rest == space + (sign + (digits + rest));
  }

  /** The value is decimal, the highest digit first. */
  lemma {:induction false} ValueOf(front: string, c: char)
    requires AllDigits(front) && '0' <= c <= '9'
    ensures Value("") == 0 && Value(front + [c]) == 10 * Value(front) + (c as int - '0' as int)
  {
    assert (front + [c])[..|front|] == front;
  }

  lemma DecimalIsTrimmed(n: int)
    ensures Decimal(n) != "" && Trimmed(Decimal(n))
    ensures forall k | 0 <= k < |Decimal(n)| :: IsDigit(Decimal(n)[k]) || Decimal(n)[k] == '-'
  {
    var digits := Digits(if n < 0 then -n else n);
    assert IsDigit(digits[0]) && IsDigit(digits[|digits| - 1]);
  }

  // ---------- lists of numbers ----------

  /** Items are trimmed, empty ones skipped, and the first bad number ends everything. */
  function Numbers(items: seq<string>): Result<seq<int>, NumberError> {
    if items == [] then Ok([]) else AddItem(Numbers(items[..|items| - 1]), Trim(items[|items| - 1]))
  }

  function AddItem(front: Result<seq<int>, NumberError>, item: string): Result<seq<int>, NumberError> {
    if front.Err? || item == "" then front else
      match Stoi(item)
      case Err(e) => Err(e)
      case Ok(n) => Ok(front.value + [n])
  }

  lemma {:induction false} NumbersStep(items: seq<string>, item: string)
    ensures Numbers([]) == Ok([])
    ensures Numbers(items + [item]) == AddItem(Numbers(items), Trim(item))
  {
    assert (items + [item])[..|items|] == items;
  }

  lemma {:induction false} ErrorsStay(items: seq<string>, more: seq<string>)
    requires Numbers(items).Err?
    ensures Numbers(items + more) == Numbers(items)
  {
    hide Numbers;
    if more == [] {
      assert items + more == items;
    } else {
      var front := more[..|more| - 1];
      ErrorsStay(items, front);
      assert items + more == items + front + [more[|more| - 1]];
      NumbersStep(items + front, more[|more| - 1]);
    }
  }

  /** ExtractJsonArrayInt from the captured text on; found is its result. */
  method ExtractJsonArrayInt(captured: string) returns (found: bool, out: Result<seq<int>, NumberError>)
    ensures out == Numbers(Fields(captured, ','))
    ensures found <==> out.Ok? && out.value != []
  {
    hide Numbers, Fields, Trim, Stoi;
    var numbers: seq<int> := [];
    var pos, ok := 0, true;
    ghost var seen: seq<string> := [];
    NumbersStep([], "");
    assert captured[0..] == captured;
    while ok
      invariant pos <= |captured| && (!ok ==> pos == |captured|)
      invariant seen + Fields(captured[pos..], ',') == Fields(captured, ',')
      invariant Numbers(seen) == Ok(numbers)
      decreases |captured| - pos, ok
    {
      var item, next;
      ok, item, next := GetLine(captured, pos, ',');
      if ok {
        ghost var rest := Fields(captured[next..], ',');
        assert seen + ([item] + rest) == seen + [item] + rest;
        NumbersStep(seen, item);
        seen := seen + [item];
        item := Trim(item);
        if item != "" {
          var n := Stoi(item);
          if n.Err? {
            ErrorsStay(seen, rest);
            return false, Err(n.error);
          }
          numbers := numbers + [n.value];
        }
      }
      pos := next;
    }
    NoFieldsLeft(captured, ',');
    assert seen + [] == seen;
    return numbers != [], Ok(numbers);
  }

  /** An array is readable exactly when every item that is not blank starts with a number. */
  lemma {:induction false} NumbersReadable(items: seq<string>)
    ensures Numbers(items).Ok? <==> forall k | 0 <= k < |items| :: Trim(items[k]) == "" || Stoi(Trim(items[k])).Ok?
  {
    hide Numbers, Trim, Stoi;
    if items == [] {
      NumbersStep([], "");
    } else {
      var front, last := items[..|items| - 1], items[|items| - 1];
      NumbersReadable(front);
      NumbersStep(front, last);
      assert items == front + [last];
    }
  }

  /** Each number with its own padding in front and behind. */
  function Padded(numbers: seq<int>, before: seq<string>, after: seq<string>): seq<string>
    requires |before| == |after| == |numbers|
  {
    seq(|numbers|, k requires 0 <= k < |numbers| => before[k] + Decimal(numbers[k]) + after[k])
  }

  lemma {:induction false} NumbersOfPadded(numbers: seq<int>, before: seq<string>, after: seq<string>)
    requires |before| == |after| == |numbers|
    requires forall k | 0 <= k < |numbers| :: IsInt(numbers[k]) && Blank(before[k]) && Blank(after[k])
    ensures Numbers(Padded(numbers, before, after)) == Ok(numbers)
  {
    hide Numbers, Trim, Stoi, Decimal;
    if numbers == [] {
      NumbersStep([], "");
    } else {
      var last := |numbers| - 1;
      var n, a, b := numbers[last], before[last], after[last];
      var front := Padded(numbers[..last], before[..last], after[..last]);
      NumbersOfPadded(numbers[..last], before[..last], after[..last]);
      assert Padded(numbers, before, after) == front + [a + Decimal(n) + b];
      NumbersStep(front, a + Decimal(n) + b);
      DecimalIsTrimmed(n);
      TrimUndoesPadding(a, Decimal(n), b);
      StoiOfDecimal(n, "");
      assert Decimal(n) + "" == Decimal(n);
      assert numbers == numbers[..last] + [n];
    }
  }

  /** Printing any list of numbers with any white space around the commas and reading it again gives
      the list back. */
  lemma ListRoundTrip(numbers: seq<int>, before: seq<string>, after: seq<string>)
    requires numbers != [] && |before| == |after| == |numbers|
    requires forall k | 0 <= k < |numbers| :: IsInt(numbers[k]) && Blank(before[k]) && Blank(after[k])
    ensures Numbers(Fields(Join(Padded(numbers, before, after), ','), ',')) == Ok(numbers)
  {
    var items := Padded(numbers, before, after);
    forall k | 0 <= k < |items|
      ensures ',' !in items[k] && items[k] != ""
    {
      DecimalIsTrimmed(numbers[k]);
    }
    FieldsOfJoin(items, ',');
    NumbersOfPadded(numbers, before, after);
  }
}
