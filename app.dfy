/**
 * The request handlers: the receipt form (`/`), login and sign-up. Each
 * handler is a method over the credential store and the client's session;
 * what the receipt handler answers is specified by a function of its
 * inputs. The uploaded photograph is represented by its file name (None
 * when the request carries no `passport` file part); the paths of the QR
 * image and the converted photograph, which the source draws at random,
 * are parameters.
 */
module App {
  import opened Wrappers
  import opened Upload
  import opened FeeTable
  import opened Receipt
  import opened Auth

  datatype Response =
    | Redirect(route: string)
    | FlashRedirect(message: string, route: string)
    | Render(template: string, flashed: Option<string>, user: Option<string>)
    | BadRequest(field: string)
    | PdfDownload(downloadName: string, qrPayload: string, page: seq<Entry>)
    | ServerError

  /**
   * What the libraries the receipt handler calls make of one submission:
   * whether the uploaded bytes decode as an image, and which texts fit in
   * a QR code. Either call raising ends the request with a server error.
   */
  datatype Libraries = Libraries(imageDecodes: bool, qrFits: string -> bool)

  /** A text the Latin-1 codec can encode: every character is below U+0100. */
  predicate Latin1(s: string)
  {
    forall i :: 0 <= i < |s| ==> s[i] as int < 256
  }

  /** Every text cell of a page is Latin-1, so the page's PDF source encodes. */
  predicate PageIsLatin1(page: seq<Entry>)
  {
    forall k :: 0 <= k < |page| ==> page[k].Text? ==> Latin1(page[k].text)
  }

  /** The form fields the receipt handler reads, in the order it first reads them. */
  const FieldsInReadOrder: seq<string> := [
    "regno", "fullname", "gender", "session", "level", "date",
    "dept", "programme", "progtype", "phone", "rrr"
  ]

  /** The first of `fields` the form lacks: the key whose lookup fails first. */
  function FirstMissing(form: Form, fields: seq<string>): (r: Option<string>)
    ensures r.None? <==> forall k :: 0 <= k < |fields| ==> fields[k] in form
    ensures r.Some? ==> r.value !in form
    ensures r.Some? ==>
      exists k :: 0 <= k < |fields| && fields[k] == r.value &&
        forall j :: 0 <= j < k ==> fields[j] in form
  {
    if fields == [] then None
    else if fields[0] !in form then Some(fields[0])
    else
      var rest := FirstMissing(form, fields[1..]);
      if rest.Some? then
        var k :| 0 <= k < |fields[1..]| && fields[1..][k] == rest.value && forall j :: 0 <= j < k ==> fields[1..][j] in form;
        assert fields[k + 1] == rest.value;
        rest
      else rest
  }

  /** Every field the handler reads is present exactly when both drawn blocks find all their fields. */
  lemma FieldsCover(form: Form)
    ensures FirstMissing(form, FieldsInReadOrder).None? <==>
      HasFields(form, TopRightLayout) && HasFields(form, StudentInfoLayout)
  {
    var f := FieldsInReadOrder;
    if HasFields(form, TopRightLayout) && HasFields(form, StudentInfoLayout) {
      assert TopRightLayout[0].1 in form && TopRightLayout[1].1 in form;
      assert TopRightLayout[2].1 in form && TopRightLayout[3].1 in form;
      assert StudentInfoLayout[0].1 in form && StudentInfoLayout[1].1 in form;
      assert StudentInfoLayout[2].1 in form && StudentInfoLayout[3].1 in form;
      assert StudentInfoLayout[4].1 in form && StudentInfoLayout[5].1 in form;
      assert StudentInfoLayout[6].1 in form;
      forall k | 0 <= k < |f| ensures f[k] in form {
      }
    }
    if FirstMissing(form, f).None? {
      assert f[0] in form && f[1] in form && f[2] in form && f[3] in form;
      assert f[4] in form && f[5] in form && f[6] in form && f[7] in form;
      assert f[8] in form && f[9] in form && f[10] in form;
    }
  }

  /**
   * What a POST to `/` answers, in the order the handler meets each case: a
   * redirect to the login page without a logged-in user; a 400 without a
   * `passport` file part; a flashed message and a redirect back to the form
   * for a missing or non-JPG/PNG photograph; a server error when the bytes
   * do not decode as an image; a 400 when the registration number or name
   * is missing; a server error when the QR payload does not fit in a QR
   * code; a 400 naming the first other form field that is missing; a
   * server error when the drawn page does not encode as Latin-1; and
   * otherwise the receipt, with the QR code encoding the registration
   * number and name, and a download name made from the registration number.
   */
  function IndexPostResponse(authenticated: bool, form: Form, passport: Option<string>, libs: Libraries,
                             qrPath: string, passportPath: string): (r: Response)
    ensures !authenticated ==> r == Redirect("login")
    ensures r.PdfDownload? || r.ServerError? ==>
      authenticated && passport.Some? && PassportAccepted(passport.value)
    ensures r.PdfDownload? ==> libs.imageDecodes && "regno" in form && "fullname" in form
    ensures r.BadRequest? ==> r.field == "passport" || r.field !in form
  {
    if !authenticated then Redirect("login")
    else if passport.None? then BadRequest("passport")
    else if !PassportAccepted(passport.value) then FlashRedirect(PassportRejectedMessage, "index")
    else if !libs.imageDecodes then ServerError
    else if "regno" !in form then BadRequest("regno")
    else if "fullname" !in form then BadRequest("fullname")
    else if !libs.qrFits(QrPayload(form["regno"], form["fullname"])) then ServerError
    else
      match FirstMissing(form, FieldsInReadOrder)
      case Some(field) => BadRequest(field)
      case None =>
        FieldsCover(form);
        var page := PageEntries(qrPath, passportPath, form);
        if !PageIsLatin1(page) then ServerError
        else PdfDownload(DownloadName(form["regno"]), QrPayload(form["regno"], form["fullname"]), page)
  }

  /** The receipt handler: a method over the session and the user table, drawing the page on a fresh PDF. */
  method HandleIndexPost(users: UserTable, session: Session, form: Form, passport: Option<string>, libs: Libraries,
                         qrPath: string, passportPath: string)
    returns (resp: Response)
    requires users.Valid()
    ensures resp == IndexPostResponse(session.Authenticated(users), form, passport, libs, qrPath, passportPath)
  {
    if !session.Authenticated(users) {
      return Redirect("login");
    }
    if passport.None? {
      return BadRequest("passport");
    }
    if !PassportAccepted(passport.value) {
      return FlashRedirect(PassportRejectedMessage, "index");
    }
    if !libs.imageDecodes {
      return ServerError;
    }
    if "regno" !in form {
      return BadRequest("regno");
    }
    if "fullname" !in form {
      return BadRequest("fullname");
    }
    var payload := QrPayload(form["regno"], form["fullname"]);
    if !libs.qrFits(payload) {
      return ServerError;
    }
    var missing := FirstMissing(form, FieldsInReadOrder);
    if missing.Some? {
      return BadRequest(missing.value);
    }
    FieldsCover(form);
    var page := RenderReceipt(qrPath, passportPath, form);
    if !PageIsLatin1(page) {
      return ServerError;
    }
    resp := PdfDownload(DownloadName(form["regno"]), payload, page);
  }

  /** Draws the receipt on a fresh PDF in the handler's order and returns what was drawn. */
  method RenderReceipt(qrPath: string, passportPath: string, form: Form) returns (page: seq<Entry>)
    requires HasFields(form, TopRightLayout) && HasFields(form, StudentInfoLayout)
    ensures page == PageEntries(qrPath, passportPath, form)
  {
    var pdf := new ReceiptPdf();
    pdf.AddPage();
    pdf.DrawTopRightBlock(qrPath, passportPath, form);
    ghost var top := pdf.log;
    pdf.DrawStudentInfo(form);
    pdf.DrawPaymentTable();
    pdf.DrawFooter();
    page := pdf.log;
    assert page == top + StudentInfoEntries(form) + PaymentTableEntries() + FooterEntries();
  }

  /** A GET of `/`: the form page greeting the logged-in user, or a redirect to the login page. */
  method HandleIndexGet(users: UserTable, session: Session) returns (resp: Response)
    requires users.Valid()
    ensures session.Authenticated(users) ==>
      resp == Render("index.html", None, Some(LoadUser(users.rows, session.userId.value).value.username))
    ensures !session.Authenticated(users) ==> resp == Redirect("login")
  {
    if !session.Authenticated(users) {
      return Redirect("login");
    }
    var user := LoadUser(users.rows, session.userId.value);
    resp := Render("index.html", None, Some(user.value.username));
  }

  /**
   * The login handler: a 400 when the form lacks a credential field;
   * otherwise, on valid credentials, the session logs the user in and the
   * client is sent to the form page, and on invalid ones the login page is
   * shown again with a message and the session is left alone.
   */
  method HandleLogin(users: UserTable, session: Session, form: Form, check: (string, string) -> bool) returns (resp: Response)
    modifies session
    ensures "username" !in form ==> resp == BadRequest("username") && session.userId == old(session.userId)
    ensures "username" in form && "password" !in form ==> resp == BadRequest("password") && session.userId == old(session.userId)
    ensures "username" in form && "password" in form ==>
      var who := Authenticate(users.rows, form["username"], form["password"], check);
      (who.Some? ==> resp == Redirect("index") && session.userId == who) &&
      (who.None? ==> resp == Render("login.html", Some("Invalid credentials."), None) && session.userId == old(session.userId))
  {
    if "username" !in form {
      return BadRequest("username");
    }
    if "password" !in form {
      return BadRequest("password");
    }
    var ok := session.Login(users, form["username"], form["password"], check);
    if ok {
      resp := Redirect("index");
    } else {
      resp := Render("login.html", Some("Invalid credentials."), None);
    }
  }

  /**
   * The sign-up handler: a 400 when the form lacks a field; a taken
   * username is refused with a message and the table is unchanged;
   * otherwise the user is stored with the hash of the password.
   */
  method HandleSignUp(users: UserTable, form: Form, hash: string -> string) returns (resp: Response)
    requires users.Valid()
    modifies users
    ensures users.Valid()
    ensures "username" !in form ==> resp == BadRequest("username") && users.rows == old(users.rows)
    ensures "username" in form && "password" !in form ==> resp == BadRequest("password") && users.rows == old(users.rows)
    ensures "username" in form && "password" in form ==>
      (FindUser(old(users.rows), form["username"]).Some? ==>
        resp == FlashRedirect("Username already exists.", "signup") && users.rows == old(users.rows)) &&
      (FindUser(old(users.rows), form["username"]).None? ==>
        resp == FlashRedirect("Account created. Please login.", "login") &&
        users.rows == old(users.rows) + [NewUser(old(users.rows), form["username"], hash(form["password"]))])
  {
    if "username" !in form {
      return BadRequest("username");
    }
    if "password" !in form {
      return BadRequest("password");
    }
    var created := users.SignUp(form["username"], hash(form["password"]));
    if created {
      resp := FlashRedirect("Account created. Please login.", "login");
    } else {
      resp := FlashRedirect("Username already exists.", "signup");
    }
  }

  /** The logout handler: a logged-in user is logged out and sent to the login page with a message. */
  method HandleLogout(users: UserTable, session: Session) returns (resp: Response)
    requires users.Valid()
    modifies session
    ensures old(session.Authenticated(users)) ==>
      resp == FlashRedirect("You have been logged out.", "login") && session.userId == None
    ensures !old(session.Authenticated(users)) ==> resp == Redirect("login") && session.userId == old(session.userId)
  {
    if !session.Authenticated(users) {
      return Redirect("login");
    }
    session.Logout();
    resp := FlashRedirect("You have been logged out.", "login");
  }

  /** Without a logged-in user the receipt handler only redirects to the login page. */
  lemma UnauthenticatedRedirected(form: Form, passport: Option<string>, libs: Libraries, qrPath: string, passportPath: string)
    ensures IndexPostResponse(false, form, passport, libs, qrPath, passportPath) == Redirect("login")
  {
  }

  /** A photograph the gate refuses never leads to a receipt: the handler flashes the message and redirects. */
  lemma RejectedPassportNeverRenders(form: Form, filename: string, libs: Libraries, qrPath: string, passportPath: string)
    requires !PassportAccepted(filename)
    ensures IndexPostResponse(true, form, Some(filename), libs, qrPath, passportPath) ==
      FlashRedirect("Only JPG/PNG passport image required.", "index")
  {
  }

  /** Bytes that do not decode as an image end the request with a server error, whatever the form holds. */
  lemma UndecodableImageFails(form: Form, filename: string, libs: Libraries, qrPath: string, passportPath: string)
    requires PassportAccepted(filename) && !libs.imageDecodes
    ensures IndexPostResponse(true, form, Some(filename), libs, qrPath, passportPath) == ServerError
  {
  }

  /** A registration number and name too long for a QR code end the request with a server error. */
  lemma OversizedQrFails(form: Form, filename: string, libs: Libraries, qrPath: string, passportPath: string)
    requires PassportAccepted(filename) && libs.imageDecodes
    requires "regno" in form && "fullname" in form && !libs.qrFits(form["regno"] + " - " + form["fullname"])
    ensures IndexPostResponse(true, form, Some(filename), libs, qrPath, passportPath) == ServerError
  {
  }

  /**
   * A receipt is produced exactly when the user is logged in, the
   * photograph passes the gate and decodes, the QR payload fits, every field
   * is present and the page encodes as Latin-1; the receipt then carries
   * the submission: its download name, QR payload and page come from the
   * form.
   */
  lemma ReceiptExactlyWhenValid(authenticated: bool, form: Form, passport: Option<string>, libs: Libraries,
                                qrPath: string, passportPath: string)
    ensures IndexPostResponse(authenticated, form, passport, libs, qrPath, passportPath).PdfDownload? <==>
      authenticated && passport.Some? && PassportAccepted(passport.value) && libs.imageDecodes &&
      "regno" in form && "fullname" in form && libs.qrFits(QrPayload(form["regno"], form["fullname"])) &&
      HasFields(form, TopRightLayout) && HasFields(form, StudentInfoLayout) &&
      PageIsLatin1(PageEntries(qrPath, passportPath, form))
    ensures IndexPostResponse(authenticated, form, passport, libs, qrPath, passportPath).PdfDownload? ==>
      var r := IndexPostResponse(authenticated, form, passport, libs, qrPath, passportPath);
      "regno" in form && "fullname" in form &&
      r.downloadName == ReplaceSlashes(form["regno"]) + "_receipt.pdf" &&
      '/' !in r.downloadName &&
      r.qrPayload == form["regno"] + " - " + form["fullname"]
  {
    FieldsCover(form);
  }

  /**
   * With a photograph that passes and decodes, a missing field yields a 400
   * naming the first field, in reading order, that the form lacks (unless
   * the QR payload, read first, already failed to fit).
   */
  lemma MissingFieldReported(form: Form, filename: string, libs: Libraries, qrPath: string, passportPath: string, field: string)
    requires PassportAccepted(filename) && libs.imageDecodes
    requires "regno" !in form || "fullname" !in form || libs.qrFits(QrPayload(form["regno"], form["fullname"]))
    requires field !in form
    requires exists k :: 0 <= k < |FieldsInReadOrder| && FieldsInReadOrder[k] == field
    ensures IndexPostResponse(true, form, Some(filename), libs, qrPath, passportPath).BadRequest?
    ensures IndexPostResponse(true, form, Some(filename), libs, qrPath, passportPath).field !in form
    ensures
      exists k :: 0 <= k < |FieldsInReadOrder| &&
        FieldsInReadOrder[k] == IndexPostResponse(true, form, Some(filename), libs, qrPath, passportPath).field &&
        forall j :: 0 <= j < k ==> FieldsInReadOrder[j] in form
  {
    var f := FieldsInReadOrder;
    assert f[0] == "regno" && f[1] == "fullname";
  }

  /**
   * The receipt page has 68 cells and images: the header, the top-right
   * block and the student table are drawn from the form, and the fee table
   * (cells 29 to 64) and the footer are the same for every submission.
   */
  lemma PageLayout(qrPath: string, passportPath: string, form: Form)
    requires HasFields(form, TopRightLayout) && HasFields(form, StudentInfoLayout)
    ensures |PageEntries(qrPath, passportPath, form)| == 68
    ensures PageEntries(qrPath, passportPath, form)[..4] == HeaderEntries()
    ensures PageEntries(qrPath, passportPath, form)[4..14] == TopRightBlockEntries(qrPath, passportPath, form)
    ensures PageEntries(qrPath, passportPath, form)[14..29] == StudentInfoEntries(form)
    ensures PageEntries(qrPath, passportPath, form)[29..65] == PaymentTableEntries()
    ensures PageEntries(qrPath, passportPath, form)[65..] == FooterEntries()
  {
    var h, t, s, p, f := HeaderEntries(), TopRightBlockEntries(qrPath, passportPath, form), StudentInfoEntries(form),
      PaymentTableEntries(), FooterEntries();
    RowEntriesAt(Rows(TopRightLayout, form), "", false);
    RowEntriesAt(Rows(StudentInfoLayout, form), ":", true);
    PaymentTableLayout();
    assert |h| == 4 && |t| == 10 && |s| == 15 && |p| == 36 && |f| == 3;
    PartsOfConcatenation(h, t, s, p, f);
  }

  lemma PartsOfConcatenation(a: seq<Entry>, b: seq<Entry>, c: seq<Entry>, d: seq<Entry>, e: seq<Entry>)
    ensures (a + b + c + d + e)[..|a|] == a
    ensures (a + b + c + d + e)[|a|..|a| + |b|] == b
    ensures (a + b + c + d + e)[|a| + |b|..|a| + |b| + |c|] == c
    ensures (a + b + c + d + e)[|a| + |b| + |c|..|a| + |b| + |c| + |d|] == d
    ensures (a + b + c + d + e)[|a| + |b| + |c| + |d|..] == e
  {
  }

  /** Every value the blocks read from the form is drawn as a cell of the page. */
  lemma FieldValuesDrawn(qrPath: string, passportPath: string, form: Form)
    requires HasFields(form, TopRightLayout) && HasFields(form, StudentInfoLayout)
    ensures forall k :: 0 <= k < |TopRightLayout| ==>
      Text(form[TopRightLayout[k].1], false, true) in PageEntries(qrPath, passportPath, form)
    ensures forall k :: 0 <= k < |StudentInfoLayout| ==>
      Text(form[StudentInfoLayout[k].1], true, true) in PageEntries(qrPath, passportPath, form)
  {
    TopRightValuesDrawn(qrPath, passportPath, form);
    StudentInfoValuesDrawn(form);
  }

  lemma TopRightValuesDrawn(qrPath: string, passportPath: string, form: Form)
    requires HasFields(form, TopRightLayout)
    ensures forall k :: 0 <= k < |TopRightLayout| ==>
      Text(form[TopRightLayout[k].1], false, true) in TopRightBlockEntries(qrPath, passportPath, form)
  {
    var rows := Rows(TopRightLayout, form);
    RowEntriesAt(rows, "", false);
    forall k | 0 <= k < |TopRightLayout|
      ensures Text(form[TopRightLayout[k].1], false, true) in RowEntries(rows, "", false)
    {
      assert RowEntries(rows, "", false)[2 * k + 1] == Text(form[TopRightLayout[k].1], false, true);
    }
  }

  lemma StudentInfoValuesDrawn(form: Form)
    requires HasFields(form, StudentInfoLayout)
    ensures forall k :: 0 <= k < |StudentInfoLayout| ==>
      Text(form[StudentInfoLayout[k].1], true, true) in StudentInfoEntries(form)
  {
    var rows := Rows(StudentInfoLayout, form);
    RowEntriesAt(rows, ":", true);
    forall k | 0 <= k < |StudentInfoLayout|
      ensures Text(form[StudentInfoLayout[k].1], true, true) in RowEntries(rows, ":", true)
    {
      assert RowEntries(rows, ":", true)[2 * k + 1] == Text(form[StudentInfoLayout[k].1], true, true);
    }
  }

  /** A form value outside Latin-1 makes the page fail to encode: the handler answers with a server error and no receipt. */
  lemma NonLatin1FieldFails(form: Form, filename: string, libs: Libraries, qrPath: string, passportPath: string, k: nat)
    requires PassportAccepted(filename) && libs.imageDecodes
    requires forall j :: 0 <= j < |FieldsInReadOrder| ==> FieldsInReadOrder[j] in form
    requires "regno" in form && "fullname" in form && libs.qrFits(QrPayload(form["regno"], form["fullname"]))
    requires k < |FieldsInReadOrder| && !Latin1(form[FieldsInReadOrder[k]])
    ensures IndexPostResponse(true, form, Some(filename), libs, qrPath, passportPath) == ServerError
  {
    assert FieldsInReadOrder[0] == "regno" && FieldsInReadOrder[1] == "fullname";
    FieldsCover(form);
    FieldValuesDrawn(qrPath, passportPath, form);
    var page := PageEntries(qrPath, passportPath, form);
    var f := FieldsInReadOrder[k];
    var drawn: Entry;
    if 2 <= k < 6 {
      drawn := Text(form[TopRightLayout[k - 2].1], false, true);
      assert drawn in page;
    } else {
      var j := if k < 2 then k else k - 4;
      drawn := Text(form[StudentInfoLayout[j].1], true, true);
      assert drawn in page;
    }
    assert drawn.text == form[f];
    assert !PageIsLatin1(page);
  }
}
