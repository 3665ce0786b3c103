/**
 GetMcsVectorFromInput of contrib/nr/examples/cttc-fh-compression.cc: a list of schemes separated
 by bars, each looked up in a fixed table.
 */
module Mcs {
  import opened Wrappers
  import opened Text

  const LOOKUP_TABLE: map<string, int> := map[
    "1" := 1, "2" := 2, "3" := 3, "4" := 4, "5" := 5, "6" := 6, "7" := 7,
    "8" := 8, "9" := 9, "10" := 10, "11" := 11, "12" := 12, "13" := 13, "14" := 14,
    "15" := 15, "16" := 16, "17" := 17, "18" := 18, "19" := 19, "20" := 20, "21" := 21,
    "22" := 22, "23" := 23, "24" := 24, "25" := 25, "26" := 26, "27" := 27, "28" := 28]

  function Lookup(tokens: seq<string>): Result<seq<int>, string> {
    if tokens == [] then Ok([]) else
      var front := Lookup(tokens[..|tokens| - 1]);
      var token := tokens[|tokens| - 1];
      if front.Err? then front
      else if token !in LOOKUP_TABLE then Err("Not valid MCS input")
      else Ok(front.value + [LOOKUP_TABLE[token]])
  }

  lemma {:induction false} LookupFails(tokens: seq<string>, k: nat)
    requires k < |tokens| && tokens[k] !in LOOKUP_TABLE
    ensures Lookup(tokens) == Err("Not valid MCS input")
  {
    var front := tokens[..|tokens| - 1];
    if k < |front| {
      LookupFails(front, k);
    } else {
      LookupOutcome(front);
    }
  }

  lemma {:induction false} LookupOutcome(tokens: seq<string>)
    ensures Lookup(tokens).Err? ==> Lookup(tokens) == Err("Not valid MCS input")
  {
    if tokens != [] {
      LookupOutcome(tokens[..|tokens| - 1]);
    }
  }

  method GetMcsVectorFromInput(pattern: string) returns (r: Result<seq<int>, string>)
    ensures r == Lookup(Fields(pattern, '|'))
  {
    var extracted := Split(pattern, '|');
    var vector: seq<int> := [];
    for k := 0 to |extracted|
      invariant Lookup(extracted[..k]) == Ok(vector)
    {
      assert extracted[..k + 1][..k] == extracted[..k];
      if extracted[k] !in LOOKUP_TABLE {
        LookupFails(extracted, k);
        return Err("Not valid MCS input");
      }
      vector := vector + [LOOKUP_TABLE[extracted[k]]];
    }
    assert extracted[..|extracted|] == extracted;
    return Ok(vector);
  }

  predicate IsMcs(n: int) { 1 <= n <= 28 }

  lemma DecimalOfSmall(n: nat)
    requires n < 100
    ensures Decimal(n) ==
            if n < 10 then [('0' as int + n) as char]
            else [('0' as int + n / 10) as char, ('0' as int + n % 10) as char]
  {
    if n >= 10 {
      assert Digits(n / 10) == [('0' as int + n / 10) as char];
    }
  }

  /** The table holds the decimal forms of 1 to 28 ... */
  lemma SchemesAreInTable(n: int)
    requires IsMcs(n)
    ensures Decimal(n) in LOOKUP_TABLE && LOOKUP_TABLE[Decimal(n)] == n
  {
    hide Decimal;
    DecimalOfSmall(n);
  }

  /** ... and nothing else. */
  lemma TableIsDecimal(token: string)
    requires token in LOOKUP_TABLE
    ensures IsMcs(LOOKUP_TABLE[token]) && Decimal(LOOKUP_TABLE[token]) == token
  {
    hide Decimal;
    DecimalOfSmall(LOOKUP_TABLE[token]);
  }

  function Decimals(vector: seq<int>): seq<string> {
    seq(|vector|, k requires 0 <= k < |vector| => Decimal(vector[k]))
  }

  /** Looking up succeeds exactly on printed schemes, and then gives what was printed. */
  lemma {:induction false} LookupInvertsPrinting(tokens: seq<string>, vector: seq<int>)
    ensures Lookup(tokens) == Ok(vector) <==>
            tokens == Decimals(vector) && forall k | 0 <= k < |vector| :: 1 <= vector[k] <= 28
  {
    hide Decimal;
    if tokens != [] {
      var token := tokens[|tokens| - 1];
      if token in LOOKUP_TABLE {
        TableIsDecimal(token);
      }
      if vector != [] {
        var front, last := vector[..|vector| - 1], vector[|vector| - 1];
        LookupInvertsPrinting(tokens[..|tokens| - 1], front);
        if IsMcs(last) {
          SchemesAreInTable(last);
        }
        assert vector == front + [last];
        assert tokens == tokens[..|tokens| - 1] + [token];
        assert Decimals(vector) == Decimals(front) + [Decimal(last)];
      }
    }
  }

  /** Any list of schemes, printed with bars in between, is read back. */
  lemma McsRoundTrip(vector: seq<int>)
    requires forall k | 0 <= k < |vector| :: 1 <= vector[k] <= 28
    ensures Lookup(Fields(Join(Decimals(vector), '|'), '|')) == Ok(vector)
  {
    LookupInvertsPrinting(Decimals(vector), vector);
    if vector != [] {
      forall k | 0 <= k < |vector|
        ensures '|' !in Decimals(vector)[k] && Decimals(vector)[k] != ""
      {
        DecimalIsTrimmed(vector[k]);
      }
      FieldsOfJoin(Decimals(vector), '|');
    }
  }

  /** And what is accepted is a printed list, with or without a bar at its end. */
  lemma {:induction false} AcceptedIsPrinted(pattern: string, vector: seq<int>)
    requires Lookup(Fields(pattern, '|')) == Ok(vector)
    ensures forall k | 0 <= k < |vector| :: 1 <= vector[k] <= 28
    ensures pattern == Join(Decimals(vector), '|') || pattern == Join(Decimals(vector), '|') + "|"
  {
    LookupInvertsPrinting(Fields(pattern, '|'), vector);
    JoinOfFields(pattern, '|');
  }
}
