/**
 The table's currency text: `'$' + x.toString()` with a comma inserted at every
 position the pattern `\B(?=(\d{3})+(?!\d))` matches, for a non-negative integer `x`.
 */
module Currency {
  import opened Wrappers
  import opened Digits

  /**
   Whether the pattern matches at position `i` of the digit string `d` (just before
   `d[i]`). `\B` holds only strictly between two digits, so never at either end; the
   lookahead `(\d{3})+(?!\d)` holds when the digits from `i` to the end form a
   positive number of complete triples.
   */
  predicate SeparatorAt(d: string, i: nat) {
    0 < i < |d| && (|d| - i) % 3 == 0
  }

  /**
   The lookahead read literally: the pattern matches at `i` when `i` is strictly inside
   the digits and the digits after it split into one or more whole triples.
   */
  lemma SeparatorAtMeansTriples(d: string, i: nat)
    ensures SeparatorAt(d, i) <==> 0 < i < |d| && exists n: nat :: 1 <= n && |d| - i == 3 * n
  {
    if 0 < i < |d| && (|d| - i) % 3 == 0 {
      var n: nat := (|d| - i) / 3;
      assert 1 <= n && |d| - i == 3 * n;
    }
  }

  /** The global replacement from position `i` on: a comma at every match, the digits unchanged. */
  function InsertSeparators(d: string, i: nat): (r: string)
    requires i <= |d|
    decreases |d| - i
  {
    if i == |d| then ""
    else if SeparatorAt(d, i) then "," + ([d[i]] + InsertSeparators(d, i + 1))
    else [d[i]] + InsertSeparators(d, i + 1)
  }

  /** `formatCurrency(x)` for a non-negative integer. */
  function FormatCurrency(x: nat): (r: string)
    ensures |r| >= 2 && r[0] == '$'
    ensures IsDigit(r[1])
  {
    assert !SeparatorAt(NatToString(x), 0);
    "$" + InsertSeparators(NatToString(x), 0)
  }

  function RemoveCommas(s: string): (r: string)
    ensures |r| <= |s|
    ensures ',' !in r
  {
    if |s| == 0 then ""
    else (if s[0] == ',' then "" else [s[0]]) + RemoveCommas(s[1..])
  }

  /** Reads currency text back: a `$`, then a canonical digit string with commas anywhere. */
  function ParseCurrency(s: string): (r: Option<nat>)
    ensures r.Some? ==> |s| >= 2 && s[0] == '$'
    ensures r.Some? ==> NatToString(r.value) == RemoveCommas(s[1..])
  {
    if |s| >= 2 && s[0] == '$' && Canonical(RemoveCommas(s[1..])) then
      NatToStringOfValue(RemoveCommas(s[1..]));
      Some(Value(RemoveCommas(s[1..])))
    else None
  }

  /** The separators are the only thing inserted: dropping them gives back the digits. */
  lemma {:induction false} RemoveInsertedSeparators(d: string, i: nat)
    requires AllDigits(d) && i <= |d|
    ensures RemoveCommas(InsertSeparators(d, i)) == d[i..]
    decreases |d| - i
  {
    if i < |d| {
      RemoveInsertedSeparators(d, i + 1);
      var rest := InsertSeparators(d, i + 1);
      var tail := [d[i]] + rest;
      assert tail[0] == d[i] && tail[1..] == rest;
      assert RemoveCommas(tail) == [d[i]] + d[i + 1..];
      if SeparatorAt(d, i) {
        assert ("," + tail)[1..] == tail;
      } else {
        assert "" + tail == tail;
      }
      assert d[i..] == [d[i]] + d[i + 1..];
    }
  }

  /** Round trip: stripping `$` and every comma from the currency text gives `x.toString()`. */
  lemma FormatCurrencyDigits(x: nat)
    ensures FormatCurrency(x)[0] == '$'
    ensures RemoveCommas(FormatCurrency(x)[1..]) == NatToString(x)
  {
    var r := FormatCurrency(x);
    assert r[1..] == InsertSeparators(NatToString(x), 0);
    RemoveInsertedSeparators(NatToString(x), 0);
  }

  /** Round trip through the reader: the currency text denotes `x` again. */
  lemma ParseFormatCurrency(x: nat)
    ensures ParseCurrency(FormatCurrency(x)) == Some(x)
  {
    FormatCurrencyDigits(x);
    ValueOfNatToString(x);
  }

  /** Distinct amounts never print the same. */
  lemma FormatCurrencyInjective(x: nat, y: nat)
    ensures FormatCurrency(x) == FormatCurrency(y) <==> x == y
  {
    if FormatCurrency(x) == FormatCurrency(y) {
      ParseFormatCurrency(x);
      ParseFormatCurrency(y);
    }
  }

  // Digit groups

  /** Length of the leading group of an `n`-digit string: 1, 2 or 3. */
  function LeadLength(n: nat): (k: nat)
    requires n >= 1
    ensures 1 <= k <= 3 && k <= n && (n - k) % 3 == 0
  {
    (n - 1) % 3 + 1
  }

  /** Cuts a string whose length is a multiple of three into consecutive triples. */
  function Triples(t: string): (gs: seq<string>)
    requires |t| % 3 == 0
    ensures |gs| == |t| / 3
  {
    if |t| == 0 then [] else [t[..3]] + Triples(t[3..])
  }

  /** The digit groups of a number: a leading group of 1 to 3 digits, then triples. */
  function Groups(d: string): (gs: seq<string>)
    requires |d| >= 1
    ensures |gs| >= 1
  {
    var k := LeadLength(|d|);
    [d[..k]] + Triples(d[k..])
  }

  function Join(gs: seq<string>): string {
    if |gs| == 0 then ""
    else if |gs| == 1 then gs[0]
    else gs[0] + ("," + Join(gs[1..]))
  }

  function Concat(gs: seq<string>): string {
    if |gs| == 0 then "" else gs[0] + Concat(gs[1..])
  }

  lemma {:induction false} TriplesShape(t: string)
    requires |t| % 3 == 0
    ensures forall j :: 0 <= j < |Triples(t)| ==> |Triples(t)[j]| == 3
    ensures Concat(Triples(t)) == t
  {
    if |t| > 0 {
      TriplesShape(t[3..]);
      var gs := Triples(t);
      assert gs[1..] == Triples(t[3..]);
      assert t == t[..3] + t[3..];
    }
  }

  /** The groups have the promised sizes and, read in order, spell the number. */
  lemma GroupsShape(d: string)
    requires |d| >= 1
    ensures 1 <= |Groups(d)[0]| <= 3
    ensures forall j :: 1 <= j < |Groups(d)| ==> |Groups(d)[j]| == 3
    ensures Concat(Groups(d)) == d
    ensures |Groups(d)| == 1 <==> |d| <= 3
  {
    var k := LeadLength(|d|);
    TriplesShape(d[k..]);
    var gs := Groups(d);
    assert gs[1..] == Triples(d[k..]);
    assert forall j :: 1 <= j < |gs| ==> gs[j] == Triples(d[k..])[j - 1];
    assert d == d[..k] + d[k..];
  }

  /** From a match position on, the replacement is a comma before each remaining triple. */
  lemma {:induction false} SeparatorsAtTriples(d: string, i: nat)
    requires 0 < i <= |d| && (|d| - i) % 3 == 0
    ensures i == |d| ==> InsertSeparators(d, i) == ""
    ensures i < |d| ==> InsertSeparators(d, i) == "," + Join(Triples(d[i..]))
    decreases |d| - i
  {
    if i < |d| {
      var n := |d| - i;
      assert n >= 3 && (n - 3) % 3 == 0;
      SeparatorsOverTriple(d, i);
      var t := d[i..];
      assert t[..3] == d[i..i + 3];
      if i + 3 == |d| {
        SeparatorsAtTriples(d, i + 3);
        LastTriple(t);
        assert d[i..i + 3] + "" == t;
      } else {
        SeparatorsAtTriples(d, i + 3);
        JoinTriplesStep(t);
        assert t[3..] == d[i + 3..];
      }
    }
  }

  lemma SeparatorsOverTriple(d: string, i: nat)
    requires 0 < i && i + 3 <= |d| && (|d| - i) % 3 == 0
    ensures InsertSeparators(d, i) == "," + (d[i..i + 3] + InsertSeparators(d, i + 3))
  {
    var n := |d| - i;
    assert (n - 1) % 3 == 2 && (n - 2) % 3 == 1;
    var later := InsertSeparators(d, i + 3);
    assert InsertSeparators(d, i + 3) == d[i + 3..i + 3] + later;
    PlainDigitStep(d, i + 2, i + 3, later);
    PlainDigitStep(d, i + 1, i + 3, later);
    SeparatorStep(d, i, i + 3, later);
  }

  /** A match position puts a comma, then its digit, in front of the rest. */
  lemma SeparatorStep(d: string, i: nat, k: nat, later: string)
    requires i < k <= |d| && SeparatorAt(d, i)
    requires InsertSeparators(d, i + 1) == d[i + 1..k] + later
    ensures InsertSeparators(d, i) == "," + (d[i..k] + later)
  {
    PrependDigit(d, i, k, InsertSeparators(d, i + 1), later);
  }

  /** A position without a match copies its digit in front of the rest. */
  lemma PlainDigitStep(d: string, i: nat, k: nat, later: string)
    requires i < k <= |d| && !SeparatorAt(d, i)
    requires InsertSeparators(d, i + 1) == d[i + 1..k] + later
    ensures InsertSeparators(d, i) == d[i..k] + later
  {
    PrependDigit(d, i, k, InsertSeparators(d, i + 1), later);
  }

  lemma PrependDigit(d: string, i: nat, k: nat, rest: string, later: string)
    requires i < k <= |d| && rest == d[i + 1..k] + later
    ensures [d[i]] + rest == d[i..k] + later
  {
    ConsAssoc(d[i], d[i + 1..k], later);
    assert [d[i]] + d[i + 1..k] == d[i..k];
  }

  lemma ConsAssoc<T>(x: T, a: seq<T>, b: seq<T>)
    ensures [x] + (a + b) == ([x] + a) + b
  {
  }

  lemma LastTriple(t: string)
    requires |t| == 3
    ensures Join(Triples(t)) == t
  {
    assert t[..3] == t && t[3..] == "";
  }

  lemma JoinTriplesStep(t: string)
    requires |t| > 3 && |t| % 3 == 0
    ensures Join(Triples(t)) == t[..3] + ("," + Join(Triples(t[3..])))
  {
    var ts := Triples(t);
    assert ts[0] == t[..3];
    assert ts[1..] == Triples(t[3..]);
  }

  /** Before the end of the leading group nothing is inserted. */
  lemma {:induction false} NoSeparatorInLead(d: string, i: nat)
    requires |d| >= 1 && i <= LeadLength(|d|)
    ensures InsertSeparators(d, i) == d[i..LeadLength(|d|)] + InsertSeparators(d, LeadLength(|d|))
    decreases |d| - i
  {
    var k := LeadLength(|d|);
    if i < k {
      NoSeparatorInLead(d, i + 1);
      assert !SeparatorAt(d, i) by {
        assert i == 0 || (|d| - i) % 3 != 0;
      }
      PlainDigitStep(d, i, k, InsertSeparators(d, k));
    } else {
      assert d[i..k] == "";
    }
  }

  /** The inserted commas sit exactly between the digit groups. */
  lemma SeparatorsBetweenGroups(d: string)
    requires |d| >= 1
    ensures InsertSeparators(d, 0) == Join(Groups(d))
  {
    if |d| <= 3 {
      ShortNumberGroups(d);
    } else {
      LongNumberGroups(d);
    }
  }

  lemma ShortNumberGroups(d: string)
    requires 1 <= |d| <= 3
    ensures InsertSeparators(d, 0) == Join(Groups(d))
  {
    var k := LeadLength(|d|);
    assert k == |d|;
    LeadPrefix(d);
    assert d[..k] == d;
    assert InsertSeparators(d, k) == "";
    AppendEmpty(d);
    SingleGroup(d);
  }

  lemma AppendEmpty<T>(s: seq<T>)
    ensures s + [] == s
  {
  }

  lemma LongNumberGroups(d: string)
    requires |d| > 3
    ensures InsertSeparators(d, 0) == Join(Groups(d))
  {
    var k := LeadLength(|d|);
    assert 0 < k < |d| && (|d| - k) % 3 == 0;
    var t := d[k..];
    assert |t| % 3 == 0 by { assert |t| == |d| - k; }
    calc {
      InsertSeparators(d, 0);
      { LeadPrefix(d); }
      d[..k] + InsertSeparators(d, k);
      { SeparatorsAtTriples(d, k); }
      d[..k] + ("," + Join(Triples(t)));
      { LeadThenTriples(d); }
      Join(Groups(d));
    }
  }

  lemma LeadPrefix(d: string)
    requires |d| >= 1
    ensures InsertSeparators(d, 0) == d[..LeadLength(|d|)] + InsertSeparators(d, LeadLength(|d|))
  {
    NoSeparatorInLead(d, 0);
    assert d[0..LeadLength(|d|)] == d[..LeadLength(|d|)];
  }

  lemma SingleGroup(d: string)
    requires 1 <= |d| <= 3
    ensures Join(Groups(d)) == d
  {
    var k := LeadLength(|d|);
    assert d[k..] == "" && d[..k] == d;
    assert Triples(d[k..]) == [];
    assert Groups(d) == [d];
  }

  lemma LeadThenTriples(d: string)
    requires |d| > 3
    ensures Join(Groups(d)) == d[..LeadLength(|d|)] + ("," + Join(Triples(d[LeadLength(|d|)..])))
  {
    var k := LeadLength(|d|);
    var gs := Groups(d);
    assert |gs| >= 2;
    assert gs[0] == d[..k];
    assert gs[1..] == Triples(d[k..]);
  }

  /**
   Grouping shape: the currency text is `$` and the digit groups of `x.toString()`
   joined by commas, with a leading group of 1 to 3 digits and triples after it.
   */
  lemma FormatCurrencyGroups(x: nat)
    ensures var gs := Groups(NatToString(x));
      && FormatCurrency(x) == "$" + Join(gs)
      && 1 <= |gs[0]| <= 3
      && (forall j :: 1 <= j < |gs| ==> |gs[j]| == 3)
      && Concat(gs) == NatToString(x)
  {
    SeparatorsBetweenGroups(NatToString(x));
    GroupsShape(NatToString(x));
  }

  lemma {:induction false} CommaIffSeparator(d: string, i: nat)
    requires AllDigits(d) && i <= |d|
    ensures ',' in InsertSeparators(d, i) <==> exists j :: i <= j < |d| && SeparatorAt(d, j)
    decreases |d| - i
  {
    if i < |d| {
      CommaIffSeparator(d, i + 1);
      var tail := [d[i]] + InsertSeparators(d, i + 1);
      assert d[i] != ',';
      assert ',' in tail <==> ',' in InsertSeparators(d, i + 1);
      if SeparatorAt(d, i) {
        assert InsertSeparators(d, i) == "," + tail;
        assert ',' in InsertSeparators(d, i);
      } else {
        assert InsertSeparators(d, i) == tail;
      }
      if exists j :: i <= j < |d| && SeparatorAt(d, j) {
        var j :| i <= j < |d| && SeparatorAt(d, j);
        if j > i {
          assert ',' in InsertSeparators(d, i + 1);
        }
      }
    }
  }

  /** A comma appears exactly when the amount has four or more digits. */
  lemma FormatCurrencyHasComma(x: nat)
    ensures ',' in FormatCurrency(x) <==> x >= 1000
  {
    var d := NatToString(x);
    CommaIffSeparator(d, 0);
    ValueOfNatToString(x);
    LeadingNonZero(d);
    assert FormatCurrency(x) == "$" + InsertSeparators(d, 0);
    if x >= 1000 {
      assert Pow10(3) == 1000;
      assert |d| >= 4;
      assert SeparatorAt(d, |d| - 3);
    } else {
      assert |d| <= 3;
      assert forall j :: 0 <= j < |d| ==> !SeparatorAt(d, j);
    }
  }

  lemma NatToStringExample()
    ensures NatToString(1234567) == "1234567"
  {
    assert NatToString(1) == "1";
    assert NatToString(12) == "12";
    assert NatToString(123) == "123";
    assert NatToString(1234) == "1234";
    assert NatToString(12345) == "12345";
    assert NatToString(123456) == "123456";
  }

  lemma GroupsExample()
    ensures Groups("1234567") == ["1", "234", "567"]
  {
    var d := "1234567";
    assert LeadLength(7) == 1;
    assert d[..1] == "1" && d[1..] == "234567";
    var t := d[1..];
    assert t[..3] == "234" && t[3..] == "567";
    var u := t[3..];
    assert u[..3] == "567" && u[3..] == "";
    assert Triples(u) == ["567"];
    assert Triples(t) == ["234", "567"];
  }

  /** Zero prints as `$0`: one digit, no separator. */
  lemma FormatCurrencyZero()
    ensures FormatCurrency(0) == "$0"
  {
    assert NatToString(0) == "0";
    assert InsertSeparators("0", 1) == "";
    assert !SeparatorAt("0", 0);
  }

  /** A seven-digit amount prints with a comma before each of its last two triples. */
  lemma FormatCurrencyMillions()
    ensures FormatCurrency(1234567) == "$1,234,567"
  {
    assert InsertSeparators("1234567", 0) == "1,234,567" by {
      SeparatorsBetweenGroups("1234567");
      GroupsExample();
      JoinExample();
    }
    NatToStringExample();
  }

  lemma JoinExample()
    ensures Join(["1", "234", "567"]) == "1,234,567"
  {
    var gs := ["1", "234", "567"];
    assert gs[1..] == ["234", "567"];
    assert gs[1..][1..] == ["567"];
    assert Join(["567"]) == "567";
    assert Join(["234", "567"]) == "234" + ("," + "567");
  }

}
