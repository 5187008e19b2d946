/**
 * The itemised fee table of the receipt: ten fixed rows and a printed
 * total. None of it depends on the submitted form.
 */
module FeeTable {
  import opened Wrappers
  import opened Numerals

  /** One row of the table: its number, the item, and the amount in naira as printed. */
  datatype FeeItem = FeeItem(number: string, description: string, amount: string)

  const Items: seq<FeeItem> := [
    FeeItem("1", "Examination", "1,250"),
    FeeItem("2", "Medical/Student Health Insurance Scheme", "1,000"),
    FeeItem("3", "Library", "1,000"),
    FeeItem("4", "Utilities/Services", "10,000"),
    FeeItem("5", "Finance Charge", "500"),
    FeeItem("6", "Database Charge", "1,000"),
    FeeItem("7", "ICT Project", "1,000"),
    FeeItem("8", "Facility Management", "2,500"),
    FeeItem("9", "Development Levy", "20,000"),
    FeeItem("10", "Professional Accreditation", "15,000")
  ]

  const Title := "SECOND SEMESTER PAYMENT FOR 2024/2025 SESSION - 100L"

  /** The total as a sentence, printed in the left cell of the last row. */
  const TotalInWords := "Total(N): Fifty Three Thousand Two Hundred Fifty Naira Only"

  /** The total as a figure, printed in the right cell of the last row. */
  const TotalFigure := "N53,250"

  /** What each row's printed amount reads as. */
  function Readings(items: seq<FeeItem>): seq<Option<nat>>
  {
    seq(|items|, k requires 0 <= k < |items| => ParseGrouped(items[k].amount))
  }

  /** The sum of a list of readings, or None when one of them did not read as a number. */
  function SumOfReadings(readings: seq<Option<nat>>): Option<nat>
    decreases |readings|
  {
    if readings == [] then Some(0)
    else
      var last := readings[|readings| - 1];
      var rest := SumOfReadings(readings[..|readings| - 1]);
      if last.Some? && rest.Some? then Some(rest.value + last.value) else None
  }

  /** The sum of the amounts the rows print, or None when one of them is not a grouped numeral. */
  function TableSum(items: seq<FeeItem>): Option<nat>
  {
    SumOfReadings(Readings(items))
  }

  /** The amounts the ten rows print, in naira. */
  const Amounts: seq<nat> := [1250, 1000, 1000, 10000, 500, 1000, 1000, 2500, 20000, 15000]

  function Sum(xs: seq<nat>): nat
    decreases |xs|
  {
    if xs == [] then 0 else Sum(xs[..|xs| - 1]) + xs[|xs| - 1]
  }

  /** Each row prints its amount as a grouped numeral. */
  lemma AmountsPrinted()
    ensures |Items| == |Amounts|
    ensures forall k :: 0 <= k < |Items| ==> Items[k].amount == Grouped(Amounts[k])
  {
    PrintedAmounts();
  }

  lemma PrintedAmounts()
    ensures Grouped(1250) == "1,250" && Grouped(1000) == "1,000" && Grouped(10000) == "10,000"
    ensures Grouped(500) == "500" && Grouped(2500) == "2,500" && Grouped(20000) == "20,000"
    ensures Grouped(15000) == "15,000" && Grouped(53250) == "53,250"
  {
    Prints1250();
    Prints1000();
    Prints10000();
    Prints2500();
    Prints20000();
    Prints15000();
    Prints53250();
    assert Decimal(500) == "500";
  }

  lemma PrintedThousands(u: nat, w: nat, us: string, ws: string)
    requires 0 < u < 1000 && w < 1000 && Decimal(u) == us && Group3(w) == ws
    ensures Grouped(u * 1000 + w) == us + "," + ws
  {
    GroupedSplit(u, w);
  }

  lemma Prints1250() ensures Grouped(1250) == "1,250" { PrintedThousands(1, 250, "1", "250"); }
  lemma Prints1000() ensures Grouped(1000) == "1,000" { PrintedThousands(1, 0, "1", "000"); }
  lemma Prints10000() ensures Grouped(10000) == "10,000" { PrintedThousands(10, 0, "10", "000"); }
  lemma Prints2500() ensures Grouped(2500) == "2,500" { PrintedThousands(2, 500, "2", "500"); }
  lemma Prints20000() ensures Grouped(20000) == "20,000" { PrintedThousands(20, 0, "20", "000"); }
  lemma Prints15000() ensures Grouped(15000) == "15,000" { PrintedThousands(15, 0, "15", "000"); }
  lemma Prints53250() ensures Grouped(53250) == "53,250" { PrintedThousands(53, 250, "53", "250"); }

  /** If every reading is a number, the readings sum to the sum of those numbers. */
  lemma {:induction false} SumOfReadingsOk(readings: seq<Option<nat>>, amounts: seq<nat>)
    requires |readings| == |amounts|
    requires forall k :: 0 <= k < |readings| ==> readings[k] == Some(amounts[k])
    ensures SumOfReadings(readings) == Some(Sum(amounts))
    decreases |readings|
  {
    if readings != [] {
      var n := |readings| - 1;
      SumOfReadingsOk(readings[..n], amounts[..n]);
    }
  }

  /** A single reading that is not a number makes the whole sum fail. */
  lemma {:induction false} SumOfReadingsFails(readings: seq<Option<nat>>, k: nat)
    requires k < |readings| && readings[k] == None
    ensures SumOfReadings(readings) == None
    decreases |readings|
  {
    if k < |readings| - 1 {
      SumOfReadingsFails(readings[..|readings| - 1], k);
    }
  }

  /** The ten rows are numbered "1" to "10", in order. */
  lemma ItemsNumberedInOrder()
    ensures |Items| == 10
    ensures forall k :: 0 <= k < |Items| ==> Items[k].number == Decimal(k + 1)
  {
    assert Decimal(10) == "10";
  }

  /** The printed total is the sum of the printed amounts: 53,250 naira. */
  lemma PrintedTotalIsSum()
    ensures TableSum(Items) == Some(Sum(Amounts)) == Some(53250)
    ensures TotalFigure == "N" + Grouped(Sum(Amounts))
    ensures ParseGrouped(TotalFigure[1..]) == TableSum(Items)
  {
    AmountsRead();
    SumOfReadingsOk(Readings(Items), Amounts);
    SumOfAmounts();
    TotalFigureRead();
  }

  /** Each row's printed amount reads back as its amount. */
  lemma AmountsRead()
    ensures |Items| == |Amounts|
    ensures forall k :: 0 <= k < |Items| ==> ParseGrouped(Items[k].amount) == Some(Amounts[k])
  {
    AmountsPrinted();
    forall k | 0 <= k < |Items| ensures ParseGrouped(Items[k].amount) == Some(Amounts[k]) {
      GroupedRoundTrip(Amounts[k]);
    }
  }

  lemma TotalFigureRead()
    ensures TotalFigure == "N" + Grouped(53250)
    ensures ParseGrouped(TotalFigure[1..]) == Some(53250)
  {
    PrintedAmounts();
    assert TotalFigure == "N" + "53,250";
    GroupedRoundTrip(53250);
  }

  lemma SumOfAmounts()
    ensures Sum(Amounts) == 53250
  {
    var a := Amounts;
    assert Sum(a[..0]) == 0;
    assert a[..1][..0] == a[..0] && Sum(a[..1]) == 1250;
    assert a[..2][..1] == a[..1] && Sum(a[..2]) == 2250;
    assert a[..3][..2] == a[..2] && Sum(a[..3]) == 3250;
    assert a[..4][..3] == a[..3] && Sum(a[..4]) == 13250;
    assert a[..5][..4] == a[..4] && Sum(a[..5]) == 13750;
    assert a[..6][..5] == a[..5] && Sum(a[..6]) == 14750;
    assert a[..7][..6] == a[..6] && Sum(a[..7]) == 15750;
    assert a[..8][..7] == a[..7] && Sum(a[..8]) == 18250;
    assert a[..9][..8] == a[..8] && Sum(a[..9]) == 38250;
    assert a[..10][..9] == a[..9] && Sum(a[..10]) == 53250;
    assert a[..10] == a;
  }

  /** The sentence in the total row spells out the same total in words. */
  lemma TotalInWordsSpellsTotal()
    ensures Sum(Amounts) == 53250
    ensures TotalInWords == "Total(N): " + Words(Sum(Amounts)) + " Naira Only"
  {
    SumOfAmounts();
    WordsOfTotal();
    TotalSentence();
    AppendAssoc("Total(N): ", "Fifty Three", " Thousand", " ", "Two Hundred Fifty");
  }

  lemma AppendAssoc(t: string, a: string, b: string, c: string, d: string)
    ensures t + (a + b + c + d) == t + a + b + c + d
  {
  }

  lemma WordsOfTotal()
    ensures Words(53250) == "Fifty Three" + " Thousand" + " " + "Two Hundred Fifty"
  {
    assert 53250 / 1000 == 53 && 53250 % 1000 == 250;
    Spell53();
    Spell250();
  }

  /** The sentence in the total row, grown one phrase at a time. */
  lemma TotalSentence()
    ensures TotalInWords == "Total(N): " + "Fifty Three" + " Thousand" + " " + "Two Hundred Fifty" + " Naira Only"
  {
    SentenceOpening();
    assert "Total(N): Fifty Three Thousand " + "Two Hundred Fifty" == "Total(N): Fifty Three Thousand Two Hundred Fifty";
    assert "Total(N): Fifty Three Thousand Two Hundred Fifty" + " Naira Only" == TotalInWords;
  }

  lemma SentenceOpening()
    ensures "Total(N): " + "Fifty Three" + " Thousand" + " " == "Total(N): Fifty Three Thousand "
  {
    assert "Total(N): " + "Fifty Three" == "Total(N): Fifty Three";
    assert "Total(N): Fifty Three" + " Thousand" == "Total(N): Fifty Three Thousand";
  }

  lemma Spell53()
    ensures WordsBelow1000(53) == "Fifty Three"
  {
    assert Tens[5] == "Fifty" && Units[3] == "Three";
  }

  lemma Spell250()
    ensures WordsBelow1000(250) == "Two Hundred Fifty"
  {
    assert Tens[5] == "Fifty" && Units[2] == "Two";
    assert WordsBelow100(50) == "Fifty";
    assert "Two" + " Hundred" == "Two Hundred";
    assert "Two Hundred" + " " == "Two Hundred ";
    assert "Two Hundred " + "Fifty" == "Two Hundred Fifty";
  }
}
