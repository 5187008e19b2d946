# University of Uyo school-fee receipt generator, modelled in Dafny

The system is a small Flask web application, `app.py`. A registered user logs in and submits a form with their registration number, name, gender, session, level, date, department, programme, programme type, phone number, RRR (the payment reference) and a passport photograph. The application answers with a one-page PDF receipt. The receipt holds:

- the bursary header;
- a QR code that encodes the registration number and the name;
- the photograph;
- a four-row block: Gender, Session, Level, Date;
- a seven-row table of student details;
- a fixed ten-row fee table with its total, in words and in figures;
- a footer.

The PDF is offered as a download named after the registration number.

The model has these modules:

- `Numerals` (numerals.dfy): decimal numerals, comma-grouped amounts such as `20,000`, and amounts in English words. These are the formats the fee table prints. It proves that printing and reading an amount are inverse to each other.
- `Upload` (upload.dfy): three string rules of the receipt handler:
  - the photograph gate: the file name must be non-empty and, lower-cased, end in `.jpg`, `.jpeg` or `.png`;
  - the QR payload, `regno + " - " + fullname`;
  - the download name: `regno` with every `/` replaced by `_`, followed by `_receipt.pdf`.
- `FeeTable` (fee_table.dfy): the ten constant fee rows and the printed total. It proves:
  - the rows are numbered 1 to 10 in order;
  - the amounts add up to 53,250;
  - the figure `N53,250` reads as that sum;
  - the sentence "Fifty Three Thousand Two Hundred Fifty Naira Only" spells that sum.
- `Receipt` (receipt.dfy): the PDF object as the class `ReceiptPdf`. Its field `log` is an append-only list of what was drawn, in order: images by path, and text cells with their border and line-break flags. Each `draw_*` method of the source is a method whose postcondition gives the exact cells it appends. Its lemmas state the exact row order and pairing of the two form-driven blocks and the shape of the fee table.
- `Auth` (auth.dfy): the `User` table as the class `UserTable`, whose invariant is unique usernames and ids 1, 2, 3, …, and the client's login state as the class `Session`. Sign-up refuses a taken username and changes nothing; otherwise it adds exactly one row. Login changes the session only on success. Password hashing is a parameter: sign-up receives the hash, and login receives the check as a function.
- `App` (app.dfy): the route handlers as methods over the user table and the session. What the receipt handler answers is specified by the function `IndexPostResponse`. Lemmas say when a receipt is produced and what it carries.

## Model

| member | source | states |
|---|---|---|
| Numerals.DigitChar | app.py:127-136 | the character for a digit value below 10 is a decimal digit |
| Numerals.DigitValue | app.py:127-136 | a digit character's value is below 10 and maps back to the same character |
| Numerals.Decimal | app.py:127-136 | the decimal numeral of a number is canonical (digits only, no leading zero), one character exactly for numbers below 10 |
| Numerals.DecimalRoundTrip | app.py:127-136 | reading the decimal numeral of n gives n |
| Numerals.DecimalOfValue | app.py:127-136 | a canonical numeral is the decimal numeral of its value, so numerals and numbers correspond one to one |
| Numerals.Group3 | app.py:127-144 | the three-digit group of m below 1000 is three digits whose value is m, zero-padded as in `000` |
| Numerals.Group3OfValue | app.py:127-144 | any three digits are the group of their own value |
| Numerals.GroupedRoundTrip | app.py:127-144 | reading the grouped numeral of n, as the fee column prints amounts, gives back n |
| Numerals.ParseGroupedCanonical | app.py:127-144 | every text that reads as a grouped amount is exactly how that amount is printed |
| Numerals.GroupedSplit | app.py:127-144 | an amount of u thousands and w prints as u's numeral, a comma, and w's three-digit group |
| Upload.Lower | app.py:167 | the `.lower()` of the gate: same length, no upper-case ASCII letter is left, and the only characters changed are upper-case ASCII letters, each turned into its lower-case letter |
| Upload.PassportAccepted | app.py:167 | defines the gate as a non-empty name whose lower-cased form ends with one of the tuple `(".jpg", ".jpeg", ".png")`; its contract: accepted exactly when the lower-cased name ends in `.jpg`, `.jpeg` or `.png` |
| Upload.PassportAcceptedByTail | app.py:167 | a photograph passes exactly when its name ends, ignoring case, in `.jpg`, `.png` (last four characters) or `.jpeg` (last five); the empty name fails |
| Upload.UpperCaseJpgAccepted | app.py:167 | `PHOTO.JPG` passes the gate |
| Upload.GifRejected | app.py:167 | `photo.gif` fails the gate |
| Upload.PassportAcceptedIgnoresCase | app.py:167 | the gate's verdict depends on the name only up to letter case |
| Upload.QrPayload | app.py:175 | the payload is the registration number, then exactly the three characters " - ", then the full name |
| Upload.QrPayloadSeparatesNames | app.py:175 | for one registration number, two payloads are equal exactly when the two names are |
| Upload.ReplaceSlashes | app.py:193 | `str.replace('/', '_')`: same length, every `/` becomes `_`, every other character is kept |
| Upload.DownloadName | app.py:193 | the download name has no `/`, ends in `_receipt.pdf`, is 12 characters longer than the registration number, equals number + `_receipt.pdf` when the number has no `/`, and has `_` exactly where the number had `/` or `_` |
| Upload.DownloadNameExample | app.py:193 | registration number `19/SC/123` downloads as `19_SC_123_receipt.pdf` |
| Upload.ReplaceSlashesIdempotent | app.py:193 | replacing slashes a second time changes nothing |
| FeeTable.Items | app.py:126-137 | the ten (number, item, amount) rows as the source lists them, in order, as printed text |
| FeeTable.AmountsPrinted | app.py:126-137 | each of the ten rows prints its amount (1250, 1000, 1000, 10000, 500, 1000, 1000, 2500, 20000, 15000) as a grouped numeral |
| FeeTable.AmountsRead | app.py:126-137 | each row's printed amount reads back as that amount |
| FeeTable.ItemsNumberedInOrder | app.py:126-137 | there are exactly ten rows and row k is numbered with the decimal numeral of k+1, "1" to "10" |
| FeeTable.SumOfAmounts | app.py:127-136 | the ten amounts add up to 53,250 |
| FeeTable.SumOfReadingsOk | app.py:126-144 | when every row reads as a number, the table's sum is the sum of those numbers |
| FeeTable.SumOfReadingsFails | app.py:126-144 | a single row that does not read as a number makes the table's sum undefined |
| FeeTable.PrintedTotalIsSum | app.py:126-144 | the sum of the printed amounts is 53,250, the printed figure is `N` followed by that sum grouped, and the figure reads as that sum |
| FeeTable.TotalFigureRead | app.py:144 | the printed figure is `N` + `53,250` and reads as 53250 |
| FeeTable.TotalInWordsSpellsTotal | app.py:143 | the total-row sentence is "Total(N): " + the sum of the amounts in English words + " Naira Only" |
| FeeTable.WordsOfTotal | app.py:143 | 53250 in words is "Fifty Three Thousand Two Hundred Fifty" |
| Receipt.HeaderEntries | app.py:43-58 | the header: exactly four entries, the logo image and then three borderless lines of text |
| Receipt.TopRightBlockEntries | app.py:78-94 | the top-right block: the QR image, the photograph, then two borderless text cells for each of its four rows |
| Receipt.StudentInfoEntries | app.py:96-114 | the student table: the title line, then two bordered text cells for each of its seven rows |
| Receipt.PaymentTableEntries | app.py:116-144 | the fee table: 4 + 3 per fee row + 2 entries, every one a bordered text cell |
| Receipt.FooterEntries | app.py:146-153 | the footer: three borderless text cells, of which only the last does not end its line |
| Receipt.PageEntries | app.py:178-184 | defines the whole page as header, top-right block, student table, fee table and footer in the handler's order; its contract: 68 entries |
| Receipt.RowEntriesAt | app.py:89-94 | drawing a list of rows appends two cells per row: cell 2k is row k's label, without line break, and cell 2k+1 is its value, ending the line |
| Receipt.ItemEntriesAt | app.py:138-141 | drawing fee rows appends three bordered cells per row: number, item, and amount, which ends the line |
| Receipt.TopRightBlockExact | app.py:78-94 | the top-right block draws the QR image, the photograph, then exactly the rows Gender:, Session:, Level:, Date: with their form values, in that order |
| Receipt.StudentInfoExact | app.py:96-114 | the student table draws its title, then exactly seven bordered rows RegNo:, FullName:, Dept./Faculty:, Programme:, ProgType:, Phone#:, RRR: with the matching form values, in that order |
| Receipt.PaymentTableLayout | app.py:116-144 | the fee table is 36 cells: title and three column heads, the 30 item cells, then the sentence and the figure of the total |
| Receipt.ItemRowsDrawn | app.py:126-141 | the fee table's row k shows the number k+1 and prints the amount of row k as a grouped numeral |
| Receipt.ReceiptPdf.constructor | app.py:178 | a new PDF has drawn nothing |
| Receipt.ReceiptPdf.Image | app.py:79-80 | drawing an image appends exactly that image |
| Receipt.ReceiptPdf.Cell | app.py:92-94 | drawing a cell appends exactly that cell |
| Receipt.ReceiptPdf.Header | app.py:43-58 | the header appends the logo and the three header lines |
| Receipt.ReceiptPdf.AddPage | app.py:180 | starting the page draws the header |
| Receipt.ReceiptPdf.DrawRows | app.py:89-94 | the loop over a row list appends exactly the row cells, in order |
| Receipt.ReceiptPdf.DrawTopRightBlock | app.py:78-94 | appends exactly the top-right block |
| Receipt.ReceiptPdf.DrawStudentInfo | app.py:96-114 | appends exactly the student table |
| Receipt.ReceiptPdf.DrawItems | app.py:138-141 | the loop over the fee rows appends exactly their cells, in order |
| Receipt.ReceiptPdf.DrawPaymentTable | app.py:116-144 | appends exactly the fee table |
| Receipt.ReceiptPdf.DrawFooter | app.py:146-153 | appends exactly the footer |
| Auth.FindUser | app.py:208 | the first row with the username: none exactly when no row has it; when found, that row has it and no earlier row does |
| Auth.LoadUser | app.py:37-39 | with ids 1..n, loading an id finds a row exactly when some row has that id, and returns a row of the table with that id |
| Auth.Authenticate | app.py:208-209 | defines login as the first user with the name whose stored hash checks; its contract: a success names the id of a row with that username whose hash checks, and an unknown username always fails |
| Auth.AuthenticateMeans | app.py:208-209 | with unique usernames, login succeeds exactly when some row has the username and its hash checks against the password, and then yields that row's id |
| Auth.NewUser | app.py:223-224 | the row sign-up stores has the username and the hash, and with ids 1..n its id is larger than every existing id and keeps the ids sequential |
| Auth.AddUserKeepsInvariant | app.py:34 | adding a row for a new username keeps usernames unique and ids sequential |
| Auth.FindUserAppend | app.py:220 | after appending a row, a lookup finds the old row if there was one, else the new row if it matches |
| Auth.LoginAfterSignUp | app.py:208-209 | after signing up, the new user can log in with any password the stored hash checks against, and gets the new id |
| Auth.SignUpKeepsOtherLogins | app.py:208-209 | signing up one user does not change the login outcome of any other username |
| Auth.UserTable.constructor | app.py:238-239 | the table starts empty and valid |
| Auth.UserTable.SignUp | app.py:220-226 | a taken username is refused and the table is unchanged; otherwise exactly one row is added, with the next id and the given hash; usernames stay unique |
| Auth.Session.constructor | app.py:27-29 | a new session has nobody logged in |
| Auth.Session.Authenticated | app.py:37-39 | the `login_required` test: the session holds an id that some row of the table has |
| Auth.Session.Login | app.py:208-212 | login succeeds exactly when the credentials authenticate, and the session then holds that user's id; on failure the session is unchanged |
| Auth.Session.Logout | app.py:234 | after logout nobody is logged in |
| App.FirstMissing | app.py:164-182 | none exactly when every field is in the form; otherwise a field the form lacks, before which every listed field is present |
| App.FieldsCover | app.py:84-108 | all eleven fields the handler reads are present exactly when both drawn blocks find their fields |
| App.IndexPostResponse | app.py:160-199 | defines the receipt handler's answer in the source's order of events: login redirect; 400 on a missing file part; flash-and-redirect on a refused photograph; server error when the bytes do not decode; 400 on a missing `regno` or `fullname`; server error when the QR payload does not fit; 400 on the first other missing field; server error on page text outside Latin-1; otherwise the PDF. Its contract: an anonymous request is redirected to login, a receipt or server error only follows an accepted photograph, a receipt needs a decoded image and the two name fields, and a 400 names the file part or a field the form lacks |
| App.HandleIndexPost | app.py:160-199 | the receipt handler answers exactly `IndexPostResponse` of its session's login state and its inputs, drawing the page on a fresh PDF |
| App.RenderReceipt | app.py:178-184 | drawing on a fresh PDF in the handler's order yields header, top-right block, student table, fee table, footer |
| App.HandleIndexGet | app.py:201 | a logged-in user gets the form page greeting them by username; anyone else is sent to login |
| App.HandleLogin | app.py:203-213 | 400 on a missing credential field; valid credentials log the user in and redirect to the form; invalid ones re-render the login page with "Invalid credentials." and leave the session unchanged |
| App.HandleSignUp | app.py:215-229 | 400 on a missing field; a taken username is refused with "Username already exists." and the table unchanged; otherwise exactly one user is stored with the hash of the password and the client is sent to login |
| App.HandleLogout | app.py:231-236 | a logged-in user is logged out and sent to login with a message; anyone else is only redirected |
| App.UndecodableImageFails | app.py:172 | an accepted photograph whose bytes do not decode ends the request with a server error, whatever the form holds |
| App.OversizedQrFails | app.py:155-158 | with a decoded photograph, a registration number and name too long for a QR code end the request with a server error |
| App.UnauthenticatedRedirected | app.py:161 | without a logged-in user every POST to the form is redirected to login |
| App.RejectedPassportNeverRenders | app.py:167-169 | a photograph the gate refuses yields only the flashed "Only JPG/PNG passport image required." and a redirect to the form; no receipt |
| App.ReceiptExactlyWhenValid | app.py:160-199 | a receipt comes back exactly when the user is logged in, the photograph passes the gate and decodes, the QR payload fits, all fields are present and the page encodes as Latin-1; its download name is the slash-free registration number + `_receipt.pdf` and its QR payload is registration number " - " name |
| App.MissingFieldReported | app.py:164-182 | with a photograph that passes and decodes, and unless the QR payload failed first, a missing field yields a 400 naming a missing field, the first one in reading order |
| App.PageLayout | app.py:178-184 | the page is 68 entries: header 0-3, top-right block 4-13, student table 14-28, the form-independent fee table 29-64, footer 65-67 |
| App.FieldValuesDrawn | app.py:83-114 | every value the two blocks read from the form appears as a cell of the page |
| App.TopRightValuesDrawn | app.py:83-94 | each of the four block values appears as a cell of the top-right block |
| App.StudentInfoValuesDrawn | app.py:101-114 | each of the seven student values appears as a bordered cell of the student table |
| App.NonLatin1FieldFails | app.py:186 | once the photograph decodes and the QR payload fits, a form value with a character outside Latin-1 makes the handler answer with a server error, never a receipt |

## Left out

- Drawing geometry (app.py:45-47, 50-52, 55-57, 59-76, 81-82, 90-91, 93, 97-98, 100, 111, 113, 117-119, 121, 125, 142, 147-148, 150-151): positions, sizes, fonts, colours, fill, lines and rectangles are calls into the PDF library with fractional coordinates. The log keeps only images and text cells, with their border and line-break flags.
- Receipt.ReceiptPdf.DrawFooter: `multi_cell` wraps its text over several lines. The model logs it as one cell that ends the line.
- Photograph processing (app.py:171-173): decoding, RGB conversion, resizing to 180x220 and JPEG re-encoding are calls into the imaging library. Only whether decoding succeeds is kept, as `libs.imageDecodes`. The converted file's random path is the parameter `passportPath`.
- QR rendering (app.py:155-158): image encoding and the random file path are not modelled. Only the payload is, with whether it fits in a QR code as `libs.qrFits`, and the path is the parameter `qrPath`.
- Password hashing (app.py:209, 223): `generate_password_hash` is salted and random. `App.HandleSignUp` takes it as the function `hash`, standing for the hash this call produced. `check_password_hash` is the function parameter `check`.
- Upload.Lower: lower-cases ASCII letters only. Python's `str.lower` also lower-cases other scripts, and in the source some non-ASCII characters lower-case onto ASCII ones (the Kelvin sign K onto `k`). No accepted extension contains such a letter, so the gate's verdict is the same as the source's for every name.
- App.HandleIndexPost: temporary files are not modelled. In the source, a missing `regno` or `fullname` raises while the argument of `generate_qr` (app.py:175) is being built, when only the photograph file has been written. Any later missing field (raised inside the draw methods) and the Latin-1 failure (app.py:186) come after both the photograph and the QR image have been written. Also a QR payload too large (app.py:157) comes after the photograph. In every one of these cases `os.remove` (app.py:190-191) is never reached and the files stay on disk. The model checks the other fields before drawing rather than in the middle of it; the response is the same.
- App.IndexPostResponse / App.HandleIndexPost / App.ReceiptExactlyWhenValid: whether the imaging library decodes the uploaded bytes (app.py:172) and whether the QR library can hold the payload (app.py:157) are not computed. They are the parameter `libs` (`imageDecodes` and `qrFits`). A false value there yields the 500 the source answers when those calls raise.
- App.ReceiptExactlyWhenValid: the Latin-1 condition is stated on the drawn page, not reduced to the form fields alone. The fixed texts of the page are ASCII, but that is not proved, because checking long string literals character by character is beyond the verifier's budget. App.NonLatin1FieldFails gives the direction about the form.
- Flask plumbing: routing, the `login_required` redirect target, flash storage, the message "Please log in to access this page." and the `next` parameter that `login_required` adds to its redirect (the model answers a plain `Redirect("login")`), `send_file` with its BytesIO buffer, and `render_template`. Responses are values of the `Response` datatype. A GET of `/login` or `/signup` only renders a template and is not modelled as a separate member.
- Persistence: SQLAlchemy sessions, transactions and concurrent sign-ups are not modelled. Ids are taken to be 1, 2, 3, … in insertion order, since no route deletes users. The column lengths 80 and 120 (app.py:34-35) are not enforced by SQLite and are not modelled.
- The session cookie and `load_user`'s `int(user_id)` conversion: the session holds the id directly.
- Start-up (app.py:13-29, 238-240): directory creation, configuration and table creation. The table creation appears only as `UserTable`'s constructor.
- save.py and .ipynb_checkpoints/app-checkpoint.py are not part of this model. The first is an unfinished draft of `draw_top_right_block` that only places cells at other coordinates; the second is an older copy of the application.
