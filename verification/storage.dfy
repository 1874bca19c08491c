/** Object storage naming: the folder a MIME type goes to, the key an upload
    is stored under, the key and URL an upload returns, and the empty-key
    guard of deletion. The storage client itself, the clock and the
    configured base URL are outside the model; the time and the base URL are
    parameters. */
module Storage {
  import opened Common

  const Folders: seq<string> := ["videos", "images", "pdfs", "others"]

  /** `getFolderByMime`: "video/…" to videos, "image/…" to images, exactly
      "application/pdf" to pdfs, anything else to others. */
  function GetFolderByMime(mime: string): (r: string)
    ensures r in Folders
    ensures StartsWith(mime, "video/") ==> r == "videos"
    ensures !StartsWith(mime, "video/") && StartsWith(mime, "image/") ==> r == "images"
    ensures r == "pdfs" <==> mime == "application/pdf"
    ensures r == "others" <==> !StartsWith(mime, "video/") && !StartsWith(mime, "image/") && mime != "application/pdf"
  {
    if StartsWith(mime, "video/") then
      assert mime[0] == 'v';
      "videos"
    else if StartsWith(mime, "image/") then
      assert mime[0] == 'i';
      "images"
    else if mime == "application/pdf" then "pdfs"
    else "others"
  }

  /** A PDF with parameters, or any other application type, is not a PDF
      here: only the exact string is. */
  lemma PdfOnlyExact()
    ensures GetFolderByMime("application/pdf; charset=binary") == "others"
    ensures GetFolderByMime("application/x-pdf") == "others"
  {
    var a := "application/pdf; charset=binary";
    assert a[0] == 'a' && !StartsWith(a, "video/") && !StartsWith(a, "image/");
    var b := "application/x-pdf";
    assert b[0] == 'a' && !StartsWith(b, "video/") && !StartsWith(b, "image/");
    assert b[12] != "application/pdf"[12];
  }

  // ---------------------------------------------------------------------
  // Decimal numbers, as a template string prints a millisecond timestamp.

  predicate IsDigit(c: char) {
    '0' <= c <= '9'
  }

  function Digit(d: nat): (c: char)
    requires d < 10
    ensures IsDigit(c)
  {
    "0123456789"[d]
  }

  function DigitValue(c: char): nat
    requires IsDigit(c)
  {
    c as nat - '0' as nat
  }

  /** The decimal digits of `n`, without leading zeros. */
  function DecimalString(n: nat): (r: string)
    ensures r != [] && forall i :: 0 <= i < |r| ==> IsDigit(r[i])
  {
    if n < 10 then [Digit(n)] else DecimalString(n / 10) + [Digit(n % 10)]
  }

  /** The value of a string of digits. */
  function ParseDecimal(s: string): nat
    requires forall i :: 0 <= i < |s| ==> IsDigit(s[i])
  {
    if s == [] then 0 else 10 * ParseDecimal(s[..|s| - 1]) + DigitValue(s[|s| - 1])
  }

  lemma DigitRoundTrip(d: nat)
    requires d < 10
    ensures DigitValue(Digit(d)) == d
  {
    assert Digit(d) == "0123456789"[d];
  }

  /** Reading back a printed number gives the number. */
  lemma {:induction false} DecimalRoundTrip(n: nat)
    ensures ParseDecimal(DecimalString(n)) == n
  {
    DigitRoundTrip(n % 10);
    if n >= 10 {
      var s := DecimalString(n);
      assert s[..|s| - 1] == DecimalString(n / 10);
      DecimalRoundTrip(n / 10);
    }
  }

  // ---------------------------------------------------------------------
  // Keys and URLs.

  /** The key of an upload: `${folder}/${time}-${fileName}`. */
  function ObjectKey(folder: string, time: nat, fileName: string): (r: string)
    ensures StartsWith(r, folder + "/")
  {
    folder + "/" + DecimalString(time) + "-" + fileName
  }

  /** What `uploadToS3` returns. */
  datatype Uploaded = Uploaded(s3Key: string, s3Url: string)

  /** The returned key is the stored key, and the URL is the base URL, a
      slash and the key. */
  function UploadResult(folder: string, time: nat, fileName: string, baseUrl: string): (r: Uploaded)
    ensures r.s3Key == ObjectKey(folder, time, fileName)
    ensures r.s3Url == baseUrl + "/" + r.s3Key
  {
    var key := ObjectKey(folder, time, fileName);
    Uploaded(key, baseUrl + "/" + key)
  }

  /** A file stored by MIME type lands under one of the four folders. */
  lemma KeyFolderIsKnown(mime: string, time: nat, fileName: string)
    ensures exists f :: f in Folders && StartsWith(ObjectKey(GetFolderByMime(mime), time, fileName), f + "/")
  {
    var f := GetFolderByMime(mime);
    assert f in Folders && StartsWith(ObjectKey(f, time, fileName), f + "/");
  }

  /** The first position of `c` in `s`. */
  function IndexOfChar(s: string, c: char): (r: Option<nat>)
    ensures r.Some? ==> r.value < |s| && s[r.value] == c && forall j :: 0 <= j < r.value ==> s[j] != c
    ensures r.None? ==> c !in s
  {
    if s == [] then None
    else if s[0] == c then Some(0)
    else match IndexOfChar(s[1..], c)
      case None => None
      case Some(k) => Some(k + 1)
  }

  lemma {:induction false} IndexOfCharAfter(a: string, c: char, b: string)
    requires c !in a
    ensures IndexOfChar(a + [c] + b, c) == Some(|a|)
  {
    if a != [] {
      assert (a + [c] + b)[1..] == a[1..] + [c] + b;
      IndexOfCharAfter(a[1..], c, b);
    }
  }

  /** The parts a key is made of. */
  datatype KeyParts = KeyParts(folder: string, time: nat, fileName: string)

  /** Splits a key at its first '/' and the first '-' after it. */
  function SplitKey(key: string): (r: Option<KeyParts>)
  {
    match IndexOfChar(key, '/')
    case None => None
    case Some(i) =>
      var rest := key[i + 1..];
      match IndexOfChar(rest, '-')
      case None => None
      case Some(j) =>
        var digits := rest[..j];
        if forall k :: 0 <= k < |digits| ==> IsDigit(digits[k])
        then Some(KeyParts(key[..i], ParseDecimal(digits), rest[j + 1..]))
        else None
  }

  /** A key determines its folder, time and file name, provided the folder
      has no '/' of its own. */
  lemma KeyRoundTrip(folder: string, time: nat, fileName: string)
    requires '/' !in folder
    ensures SplitKey(ObjectKey(folder, time, fileName)) == Some(KeyParts(folder, time, fileName))
  {
    var digits := DecimalString(time);
    var key := ObjectKey(folder, time, fileName);
    assert key == folder + ['/'] + (digits + "-" + fileName);
    IndexOfCharAfter(folder, '/', digits + "-" + fileName);
    var rest := key[|folder| + 1..];
    assert rest == digits + ['-'] + fileName;
    assert '-' !in digits by {
      forall k | 0 <= k < |digits| ensures digits[k] != '-' {
        assert IsDigit(digits[k]);
      }
    }
    IndexOfCharAfter(digits, '-', fileName);
    assert rest[..|digits|] == digits;
    assert rest[|digits| + 1..] == fileName;
    assert key[..|folder|] == folder;
    DecimalRoundTrip(time);
  }

  // ---------------------------------------------------------------------
  // Deletion.

  /** What `deleteFromS3` does: nothing for an empty or absent key, else
      send the delete. A failed send is logged and swallowed, so deletion
      never reports an error to its caller. */
  datatype Deletion = Skipped | Sent(key: string)

  function DeleteFromS3(key: string): (r: Deletion)
    ensures r == Skipped <==> key == ""
    ensures r.Sent? ==> r.key == key
  {
    if key == "" then Skipped else Sent(key)
  }
}
