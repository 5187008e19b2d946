/**
 * The three string rules the receipt form applies to one submission:
 * the passport-photograph gate, the text encoded in the QR code, and the
 * name under which the PDF is downloaded.
 */
module Upload {

  /** Lower-case mapping of one character, ASCII letters only (see README). */
  function LowerChar(c: char): char
  {
    if 'A' <= c <= 'Z' then (c as int + 32) as char else c
  }

  /** Python's `str.lower()` on the characters the model maps. */
  function Lower(s: string): (r: string)
    ensures |r| == |s|
    ensures forall i :: 0 <= i < |r| ==> !('A' <= r[i] <= 'Z')
    ensures forall i :: 0 <= i < |s| && r[i] != s[i] ==> 'A' <= s[i] <= 'Z' && r[i] as int == s[i] as int + 32
  {
    seq(|s|, i requires 0 <= i < |s| => LowerChar(s[i]))
  }

  predicate EndsWith(s: string, suffix: string)
  {
    |suffix| <= |s| && s[|s| - |suffix|..] == suffix
  }

  /** The extensions the upload form takes, compared after lower-casing. */
  const AllowedExtensions: seq<string> := [".jpg", ".jpeg", ".png"]

  /** The flash message shown when the passport photograph is refused. */
  const PassportRejectedMessage := "Only JPG/PNG passport image required."

  /** Python's `s.endswith(suffixes)` for a tuple: some suffix in the tuple ends `s`. */
  predicate EndsWithAny(s: string, suffixes: seq<string>)
    decreases |suffixes|
  {
    |suffixes| > 0 && (EndsWith(s, suffixes[0]) || EndsWithAny(s, suffixes[1..]))
  }

  /**
   * The passport gate: the uploaded file is truthy (a non-empty filename)
   * and its lower-cased filename ends with one of the allowed extensions.
   */
  predicate PassportAccepted(filename: string)
    ensures PassportAccepted(filename) <==>
      EndsWith(Lower(filename), ".jpg") || EndsWith(Lower(filename), ".jpeg") || EndsWith(Lower(filename), ".png")
  {
    filename != "" && EndsWithAny(Lower(filename), AllowedExtensions)
  }

  /** Case-insensitive equality, character by character. */
  predicate SameIgnoringCase(a: string, b: string)
  {
    |a| == |b| && forall i :: 0 <= i < |a| ==> LowerChar(a[i]) == LowerChar(b[i])
  }

  predicate IsLowerCase(e: string)
  {
    forall i :: 0 <= i < |e| ==> LowerChar(e[i]) == e[i]
  }

  /** A lower-case suffix ends the lower-cased name exactly when it ends the name up to case. */
  lemma EndsWithLower(filename: string, e: string)
    requires IsLowerCase(e)
    ensures EndsWith(Lower(filename), e) <==>
      |e| <= |filename| && SameIgnoringCase(filename[|filename| - |e|..], e)
  {
    if |e| <= |filename| {
      var k := |filename| - |e|;
      var l := Lower(filename);
      assert forall i :: 0 <= i < |e| ==> l[k..][i] == LowerChar(filename[k..][i]);
      if SameIgnoringCase(filename[k..], e) {
        assert l[k..] == e;
      }
    }
  }

  /**
   * The gate, stated on the tail of the filename alone: its last four
   * characters spell ".jpg" or ".png", or its last five ".jpeg", in any
   * mixture of upper and lower case.
   */
  lemma PassportAcceptedByTail(filename: string)
    ensures PassportAccepted(filename) <==>
      (|filename| >= 4 && SameIgnoringCase(filename[|filename| - 4..], ".jpg")) ||
      (|filename| >= 5 && SameIgnoringCase(filename[|filename| - 5..], ".jpeg")) ||
      (|filename| >= 4 && SameIgnoringCase(filename[|filename| - 4..], ".png"))
  {
    EndsWithLower(filename, ".jpg");
    EndsWithLower(filename, ".jpeg");
    EndsWithLower(filename, ".png");
  }

  /** Upper-case extensions pass: "PHOTO.JPG" is accepted. */
  lemma UpperCaseJpgAccepted()
    ensures PassportAccepted("PHOTO.JPG")
  {
    PassportAcceptedByTail("PHOTO.JPG");
    assert "PHOTO.JPG"[5..] == ".JPG";
    assert SameIgnoringCase(".JPG", ".jpg");
  }

  /** A non-image extension takes the flash-and-redirect path. */
  lemma GifRejected()
    ensures !PassportAccepted("photo.gif")
  {
    PassportAcceptedByTail("photo.gif");
    var tail4, tail5 := "photo.gif"[5..], "photo.gif"[4..];
    assert LowerChar(tail4[1]) != LowerChar(".jpg"[1]);
    assert LowerChar(tail5[0]) != LowerChar(".jpeg"[0]);
    assert LowerChar(tail4[1]) != LowerChar(".png"[1]);
  }

  /** Only the case of the filename is ignored: lower-casing it first never changes the verdict. */
  lemma PassportAcceptedIgnoresCase(filename: string)
    ensures PassportAccepted(Lower(filename)) == PassportAccepted(filename)
  {
    var l := Lower(filename);
    assert Lower(l) == l;
    assert l == "" <==> filename == "";
  }

  /** The text the QR code encodes: `regno`, then " - ", then `fullname`. */
  function QrPayload(regno: string, fullname: string): (p: string)
    ensures |p| == |regno| + 3 + |fullname|
    ensures p[..|regno|] == regno
    ensures p[|regno|..|regno| + 3] == " - "
    ensures p[|regno| + 3..] == fullname
  {
    regno + " - " + fullname
  }

  /** For one registration number, the payload determines the full name and vice versa. */
  lemma QrPayloadSeparatesNames(regno: string, fullname1: string, fullname2: string)
    ensures QrPayload(regno, fullname1) == QrPayload(regno, fullname2) <==> fullname1 == fullname2
  {
    if QrPayload(regno, fullname1) == QrPayload(regno, fullname2) {
      assert QrPayload(regno, fullname1)[|regno| + 3..] == QrPayload(regno, fullname2)[|regno| + 3..];
    }
  }

  /** `s.replace('/', '_')`: every slash becomes an underscore, every other character stays. */
  function ReplaceSlashes(s: string): (r: string)
    ensures |r| == |s|
    ensures forall i :: 0 <= i < |s| ==> r[i] == (if s[i] == '/' then '_' else s[i])
    decreases |s|
  {
    if s == [] then []
    else [if s[0] == '/' then '_' else s[0]] + ReplaceSlashes(s[1..])
  }

  const ReceiptSuffix := "_receipt.pdf"

  /** The download name of the receipt PDF for a registration number. */
  function DownloadName(regno: string): (name: string)
    ensures '/' !in name
    ensures EndsWith(name, ReceiptSuffix)
    ensures |name| == |regno| + |ReceiptSuffix|
    ensures '/' !in regno ==> name == regno + ReceiptSuffix
    ensures forall i :: 0 <= i < |regno| ==> (name[i] == '_' <==> regno[i] == '/' || regno[i] == '_')
  {
    var stem := ReplaceSlashes(regno);
    assert '/' !in stem by {
      forall i | 0 <= i < |stem| ensures stem[i] != '/' { }
    }
    assert '/' !in regno ==> stem == regno;
    stem + ReceiptSuffix
  }

  /** A registration number such as "19/SC/123" gives "19_SC_123_receipt.pdf". */
  lemma DownloadNameExample()
    ensures DownloadName("19/SC/123") == "19_SC_123" + ReceiptSuffix
  {
    var s := "19/SC/123";
    var r := ReplaceSlashes(s);
    assert s[2] == '/' && s[5] == '/';
    assert r == "19_SC_123" by {
      assert |r| == 9;
      forall i | 0 <= i < 9 ensures r[i] == "19_SC_123"[i] {
      }
    }
  }

  /** Replacing slashes twice is the same as replacing them once. */
  lemma ReplaceSlashesIdempotent(s: string)
    ensures ReplaceSlashes(ReplaceSlashes(s)) == ReplaceSlashes(s)
  {
  }
}
