/**
 * The receipt renderer. The PDF object is modelled as an append-only log
 * of what it is asked to draw, in order: images (by path) and text cells
 * (their text, whether they have a border, and whether the cursor moves to
 * the next line afterwards). Coordinates, sizes, fonts, colours, lines and
 * rectangles are not part of the log.
 */
module Receipt {
  import opened Numerals
  import opened FeeTable

  datatype Entry =
    | Picture(path: string)
    | Text(text: string, border: bool, newline: bool)

  /** The submitted form fields, by field name. */
  type Form = map<string, string>

  /** The labelled rows of the top-right block: printed label and form field, in order. */
  const TopRightLayout: seq<(string, string)> := [
    ("Gender:", "gender"), ("Session:", "session"), ("Level:", "level"), ("Date:", "date")
  ]

  /** The labelled rows of the student-information table: label and form field, in order. */
  const StudentInfoLayout: seq<(string, string)> := [
    ("RegNo", "regno"), ("FullName", "fullname"), ("Dept./Faculty", "dept"),
    ("Programme", "programme"), ("ProgType", "progtype"), ("Phone#", "phone"), ("RRR", "rrr")
  ]

  const LogoPath := "static/logo.jpg"
  const StudentInfoTitle := "STUDENT'S INFORMATION DETAILS"
  const UsefulInformation := "Useful Information:\nYou are expected to present this e-Receipt to your Finance Officer for confirmation and documentation. This e-receipt is valid ONLY upon confirmation."

  predicate HasFields(form: Form, layout: seq<(string, string)>)
  {
    forall k :: 0 <= k < |layout| ==> layout[k].1 in form
  }

  /** The (label, value) list a draw method builds from the form before drawing it. */
  function Rows(layout: seq<(string, string)>, form: Form): seq<(string, string)>
    requires HasFields(form, layout)
  {
    seq(|layout|, k requires 0 <= k < |layout| => (layout[k].0, form[layout[k].1]))
  }

  /** The cells drawn for labelled rows: per row, the label (with `labelSuffix`) and then the value, which ends the line. */
  function RowEntries(rows: seq<(string, string)>, labelSuffix: string, border: bool): seq<Entry>
    decreases |rows|
  {
    if rows == [] then []
    else
      var last := rows[|rows| - 1];
      RowEntries(rows[..|rows| - 1], labelSuffix, border) + [Text(last.0 + labelSuffix, border, false), Text(last.1, border, true)]
  }

  /** Row k of the list becomes cells 2k (its label) and 2k+1 (its value); nothing else is drawn. */
  lemma {:induction false} RowEntriesAt(rows: seq<(string, string)>, labelSuffix: string, border: bool)
    ensures |RowEntries(rows, labelSuffix, border)| == 2 * |rows|
    ensures forall j :: 0 <= j < 2 * |rows| ==>
      RowEntries(rows, labelSuffix, border)[j] ==
        if j % 2 == 0 then Text(rows[j / 2].0 + labelSuffix, border, false) else Text(rows[j / 2].1, border, true)
    decreases |rows|
  {
    if rows != [] {
      RowEntriesAt(rows[..|rows| - 1], labelSuffix, border);
    }
  }

  /** The cells drawn for fee rows: number, item and amount, each bordered; the amount ends the line. */
  function ItemEntries(items: seq<FeeItem>): seq<Entry>
    decreases |items|
  {
    if items == [] then []
    else
      var last := items[|items| - 1];
      ItemEntries(items[..|items| - 1]) + [Text(last.number, true, false), Text(last.description, true, false), Text(last.amount, true, true)]
  }

  /** Fee row k becomes cells 3k, 3k+1 and 3k+2: number, item and amount; nothing else is drawn. */
  lemma {:induction false} ItemEntriesAt(items: seq<FeeItem>)
    ensures |ItemEntries(items)| == 3 * |items|
    ensures forall j :: 0 <= j < 3 * |items| ==>
      ItemEntries(items)[j] ==
        if j % 3 == 0 then Text(items[j / 3].number, true, false)
        else if j % 3 == 1 then Text(items[j / 3].description, true, false)
        else Text(items[j / 3].amount, true, true)
    decreases |items|
  {
    if items != [] {
      ItemEntriesAt(items[..|items| - 1]);
    }
  }

  /** The header `add_page` draws: the logo, then three lines of text without borders. */
  function HeaderEntries(): (es: seq<Entry>)
    ensures |es| == 4 && es[0] == Picture(LogoPath)
    ensures forall k :: 1 <= k < |es| ==> es[k].Text? && !es[k].border && es[k].newline
  {
    [Picture(LogoPath), Text("OFFICE OF THE BURSAR", false, true), Text("UNIVERSITY OF UYO", false, true),
     Text("P.M.B 1017, UYO, AKWA IBOM STATE, NIGERIA", false, true)]
  }

  /** The top-right block: the QR image, the photograph, then its labelled rows without borders. */
  function TopRightBlockEntries(qrPath: string, passportPath: string, form: Form): (es: seq<Entry>)
    requires HasFields(form, TopRightLayout)
    ensures |es| == 2 + 2 * |TopRightLayout|
    ensures es[0] == Picture(qrPath) && es[1] == Picture(passportPath)
    ensures forall k :: 2 <= k < |es| ==> es[k].Text? && !es[k].border
  {
    RowEntriesAt(Rows(TopRightLayout, form), "", false);
    [Picture(qrPath), Picture(passportPath)] + RowEntries(Rows(TopRightLayout, form), "", false)
  }

  /** The student table: its title line, then its labelled rows, every cell bordered. */
  function StudentInfoEntries(form: Form): (es: seq<Entry>)
    requires HasFields(form, StudentInfoLayout)
    ensures |es| == 1 + 2 * |StudentInfoLayout|
    ensures es[0] == Text(StudentInfoTitle, false, true)
    ensures forall k :: 1 <= k < |es| ==> es[k].Text? && es[k].border
  {
    RowEntriesAt(Rows(StudentInfoLayout, form), ":", true);
    [Text(StudentInfoTitle, false, true)] + RowEntries(Rows(StudentInfoLayout, form), ":", true)
  }

  /** The fee table: title, column heads, three cells per fee row and the two total cells, all bordered text. */
  function PaymentTableEntries(): (es: seq<Entry>)
    ensures |es| == 4 + 3 * |Items| + 2
    ensures forall k :: 0 <= k < |es| ==> es[k].Text? && es[k].border
  {
    ItemEntriesAt(Items);
    [Text(FeeTable.Title, true, true), Text("#", true, false), Text("ITEM", true, false), Text("Amount(N)", true, true)]
    + ItemEntries(Items)
    + [Text(TotalInWords, true, false), Text(TotalFigure, true, true)]
  }

  /** The footer: three lines of text without borders, the last of which does not end the line. */
  function FooterEntries(): (es: seq<Entry>)
    ensures |es| == 3
    ensures forall k :: 0 <= k < |es| ==> es[k].Text? && !es[k].border && (es[k].newline <==> k < 2)
  {
    [Text(UsefulInformation, false, true), Text("Authorised Stamp & Signatory", false, true),
     Text("For University of Uyo", false, false)]
  }

  /** The whole page, in the order the request handler draws it. */
  function PageEntries(qrPath: string, passportPath: string, form: Form): (es: seq<Entry>)
    requires HasFields(form, TopRightLayout) && HasFields(form, StudentInfoLayout)
    ensures |es| == 68
  {
    HeaderEntries() + TopRightBlockEntries(qrPath, passportPath, form) + StudentInfoEntries(form)
    + PaymentTableEntries() + FooterEntries()
  }

  /** The top-right block: the QR code, the photograph, then exactly four rows Gender, Session, Level, Date, each with its form field. */
  lemma TopRightBlockExact(qrPath: string, passportPath: string, form: Form)
    requires {"gender", "session", "level", "date"} <= form.Keys
    ensures TopRightBlockEntries(qrPath, passportPath, form) == [
      Picture(qrPath), Picture(passportPath),
      Text("Gender:", false, false), Text(form["gender"], false, true),
      Text("Session:", false, false), Text(form["session"], false, true),
      Text("Level:", false, false), Text(form["level"], false, true),
      Text("Date:", false, false), Text(form["date"], false, true)]
  {
    assert HasFields(form, TopRightLayout);
    var rows := Rows(TopRightLayout, form);
    assert rows == [("Gender:", form["gender"]), ("Session:", form["session"]), ("Level:", form["level"]), ("Date:", form["date"])];
    LabelledRowsExact(rows, "");
    assert "Gender:" + "" == "Gender:" && "Session:" + "" == "Session:";
    assert "Level:" + "" == "Level:" && "Date:" + "" == "Date:";
  }

  /** Four labelled rows become eight cells, each label followed by its value. */
  lemma LabelledRowsExact(rows: seq<(string, string)>, labelSuffix: string)
    requires |rows| == 4
    ensures RowEntries(rows, labelSuffix, false) == [
      Text(rows[0].0 + labelSuffix, false, false), Text(rows[0].1, false, true),
      Text(rows[1].0 + labelSuffix, false, false), Text(rows[1].1, false, true),
      Text(rows[2].0 + labelSuffix, false, false), Text(rows[2].1, false, true),
      Text(rows[3].0 + labelSuffix, false, false), Text(rows[3].1, false, true)]
  {
    RowEntriesAt(rows, labelSuffix, false);
  }

  /** Seven bordered labelled rows become fourteen cells, each label followed by its value. */
  lemma BorderedRowsExact(rows: seq<(string, string)>, labelSuffix: string)
    requires |rows| == 7
    ensures RowEntries(rows, labelSuffix, true) == [
      Text(rows[0].0 + labelSuffix, true, false), Text(rows[0].1, true, true),
      Text(rows[1].0 + labelSuffix, true, false), Text(rows[1].1, true, true),
      Text(rows[2].0 + labelSuffix, true, false), Text(rows[2].1, true, true),
      Text(rows[3].0 + labelSuffix, true, false), Text(rows[3].1, true, true),
      Text(rows[4].0 + labelSuffix, true, false), Text(rows[4].1, true, true),
      Text(rows[5].0 + labelSuffix, true, false), Text(rows[5].1, true, true),
      Text(rows[6].0 + labelSuffix, true, false), Text(rows[6].1, true, true)]
  {
    RowEntriesAt(rows, labelSuffix, true);
  }

  /**
   * The student-information table: its title, then exactly seven bordered
   * rows RegNo, FullName, Dept./Faculty, Programme, ProgType, Phone#, RRR,
   * each label followed by a colon and paired with its form field.
   */
  lemma StudentInfoExact(form: Form)
    requires {"regno", "fullname", "dept", "programme", "progtype", "phone", "rrr"} <= form.Keys
    ensures StudentInfoEntries(form) == [
      Text(StudentInfoTitle, false, true),
      Text("RegNo:", true, false), Text(form["regno"], true, true),
      Text("FullName:", true, false), Text(form["fullname"], true, true),
      Text("Dept./Faculty:", true, false), Text(form["dept"], true, true),
      Text("Programme:", true, false), Text(form["programme"], true, true),
      Text("ProgType:", true, false), Text(form["progtype"], true, true),
      Text("Phone#:", true, false), Text(form["phone"], true, true),
      Text("RRR:", true, false), Text(form["rrr"], true, true)]
  {
    assert HasFields(form, StudentInfoLayout);
    var rows := Rows(StudentInfoLayout, form);
    assert rows == [("RegNo", form["regno"]), ("FullName", form["fullname"]), ("Dept./Faculty", form["dept"]),
      ("Programme", form["programme"]), ("ProgType", form["progtype"]), ("Phone#", form["phone"]), ("RRR", form["rrr"])];
    assert StudentInfoEntries(form) == [Text(StudentInfoTitle, false, true)] + RowEntries(rows, ":", true);
    BorderedRowsExact(rows, ":");
    assert "RegNo" + ":" == "RegNo:" && "FullName" + ":" == "FullName:";
    assert "Dept./Faculty" + ":" == "Dept./Faculty:" && "Programme" + ":" == "Programme:";
    assert "ProgType" + ":" == "ProgType:" && "Phone#" + ":" == "Phone#:" && "RRR" + ":" == "RRR:";
  }

  /**
   * The drawn fee table: a title and a header row, then the cells of the
   * ten item rows, then the total in words and the total as a figure.
   */
  lemma PaymentTableLayout()
    ensures |PaymentTableEntries()| == 4 + 3 * |Items| + 2 == 36
    ensures PaymentTableEntries()[..4] ==
      [Text(FeeTable.Title, true, true), Text("#", true, false), Text("ITEM", true, false), Text("Amount(N)", true, true)]
    ensures PaymentTableEntries()[4..34] == ItemEntries(Items)
    ensures PaymentTableEntries()[34] == Text(TotalInWords, true, false)
    ensures PaymentTableEntries()[35] == Text(TotalFigure, true, true)
  {
    ItemEntriesAt(Items);
  }

  /** The ten item rows are drawn numbered 1 to 10, each with its amount as a grouped numeral. */
  lemma ItemRowsDrawn()
    ensures |ItemEntries(Items)| == 30
    ensures forall k :: 0 <= k < 10 ==>
      ItemEntries(Items)[3 * k] == Text(Decimal(k + 1), true, false) &&
      ItemEntries(Items)[3 * k + 2] == Text(Grouped(Amounts[k]), true, true)
  {
    ItemEntriesAt(Items);
    ItemsNumberedInOrder();
    AmountsPrinted();
    forall k | 0 <= k < 10
      ensures ItemEntries(Items)[3 * k] == Text(Decimal(k + 1), true, false)
      ensures ItemEntries(Items)[3 * k + 2] == Text(Grouped(Amounts[k]), true, true)
    {
      assert (3 * k) / 3 == k && (3 * k + 2) / 3 == k && (3 * k + 2) % 3 == 2;
    }
  }

  /** The receipt PDF: a page being drawn, seen as the log of what was drawn on it. */
  class ReceiptPdf {
    var log: seq<Entry>

    constructor ()
      ensures log == []
    {
      log := [];
    }

    method Image(path: string)
      modifies this
      ensures log == old(log) + [Picture(path)]
    {
      log := log + [Picture(path)];
    }

    method Cell(text: string, border: bool, newline: bool)
      modifies this
      ensures log == old(log) + [Text(text, border, newline)]
    {
      log := log + [Text(text, border, newline)];
    }

    /** The page header, drawn by the PDF library whenever a page is added. */
    method Header()
      modifies this
      ensures log == old(log) + HeaderEntries()
    {
      Image(LogoPath);
      Cell("OFFICE OF THE BURSAR", false, true);
      Cell("UNIVERSITY OF UYO", false, true);
      Cell("P.M.B 1017, UYO, AKWA IBOM STATE, NIGERIA", false, true);
    }

    method AddPage()
      modifies this
      ensures log == old(log) + HeaderEntries()
    {
      Header();
    }

    /** Draws labelled rows one at a time: the label cell, then the value cell that ends the line. */
    method DrawRows(rows: seq<(string, string)>, labelSuffix: string, border: bool)
      modifies this
      ensures log == old(log) + RowEntries(rows, labelSuffix, border)
    {
      for i := 0 to |rows|
        invariant log == old(log) + RowEntries(rows[..i], labelSuffix, border)
      {
        var (name, value) := rows[i];
        Cell(name + labelSuffix, border, false);
        Cell(value, border, true);
        assert rows[..i + 1][..i] == rows[..i];
        assert RowEntries(rows[..i + 1], labelSuffix, border)
          == RowEntries(rows[..i], labelSuffix, border) + [Text(name + labelSuffix, border, false), Text(value, border, true)];
      }
      assert rows[..|rows|] == rows;
    }

    method DrawTopRightBlock(qrPath: string, passportPath: string, form: Form)
      requires HasFields(form, TopRightLayout)
      modifies this
      ensures log == old(log) + TopRightBlockEntries(qrPath, passportPath, form)
    {
      Image(qrPath);
      Image(passportPath);
      var block := Rows(TopRightLayout, form);
      DrawRows(block, "", false);
    }

    method DrawStudentInfo(form: Form)
      requires HasFields(form, StudentInfoLayout)
      modifies this
      ensures log == old(log) + StudentInfoEntries(form)
    {
      Cell(StudentInfoTitle, false, true);
      var fields := Rows(StudentInfoLayout, form);
      DrawRows(fields, ":", true);
    }

    /** Draws fee rows one at a time: number, item and the amount that ends the line. */
    method DrawItems(items: seq<FeeItem>)
      modifies this
      ensures log == old(log) + ItemEntries(items)
    {
      for i := 0 to |items|
        invariant log == old(log) + ItemEntries(items[..i])
      {
        var item := items[i];
        Cell(item.number, true, false);
        Cell(item.description, true, false);
        Cell(item.amount, true, true);
        assert items[..i + 1][..i] == items[..i];
        assert ItemEntries(items[..i + 1])
          == ItemEntries(items[..i]) + [Text(item.number, true, false), Text(item.description, true, false), Text(item.amount, true, true)];
      }
      assert items[..|items|] == items;
    }

    method DrawPaymentTable()
      modifies this
      ensures log == old(log) + PaymentTableEntries()
    {
      Cell(FeeTable.Title, true, true);
      Cell("#", true, false);
      Cell("ITEM", true, false);
      Cell("Amount(N)", true, true);
      DrawItems(Items);
      Cell(TotalInWords, true, false);
      Cell(TotalFigure, true, true);
    }

    method DrawFooter()
      modifies this
      ensures log == old(log) + FooterEntries()
    {
      Cell(UsefulInformation, false, true);
      Cell("Authorised Stamp & Signatory", false, true);
      Cell("For University of Uyo", false, false);
    }
  }
}
