/** The edit service's transforms of one stored PDF: add text to a page, watermark every
    page, rotate pages, extract a page range, read the document information, protect with
    passwords, unlock, and the colour parser the text transform uses. Each loads the
    content without a password first; a library failure there is reported as a processing
    error naming the transform. */
module EditService {
  import opened Common
  import opened Documents

  /** The processing error a library failure (an `IOException`) is wrapped in. */
  function Wrapped(what: string, cause: Error): Error
  {
    Error(PdfProcessing, Some(what + Text(cause.message)))
  }

  // ---------------------------------------------------------------------------------
  // Colours

  function HexDigit(c: char): (d: Option<int>)
    ensures d.Some? ==> 0 <= d.value < 16
  {
    if '0' <= c <= '9' then Some(c as int - '0' as int)
    else if 'a' <= c <= 'f' then Some(c as int - 'a' as int + 10)
    else if 'A' <= c <= 'F' then Some(c as int - 'A' as int + 10)
    else None
  }

  predicate AllHex(s: string)
  {
    forall i :: 0 <= i < |s| ==> HexDigit(s[i]).Some?
  }

  /** The value of a string of hexadecimal digits, most significant first. */
  function HexValue(s: string): nat
    requires AllHex(s)
  {
    if s == [] then 0 else HexValue(s[..|s| - 1]) * 16 + HexDigit(s[|s| - 1]).value
  }

  /** The digits `Color.decode` reads after the "#" that `parseColor` makes sure of. */
  function HexPart(s: string): string
  {
    if StartsWith(s, "#") then s[1..] else s
  }

  /** `Integer.decode` of "#" + `digits`: the digits must be hexadecimal (a sign is not),
      there must be one at least, and the value must fit a signed 32-bit `int`. */
  predicate Decodable(digits: string)
  {
    digits != [] && AllHex(digits) && HexValue(digits) <= 0x7FFF_FFFF
  }

  /** `new Color(v)`: the low three bytes of the value, red highest. */
  function RgbOf(v: int): (c: Rgb)
    requires v >= 0
    ensures 0 <= c.red < 256 && 0 <= c.green < 256 && 0 <= c.blue < 256
    ensures v < 0x100_0000 ==> v == c.red * 0x1_0000 + c.green * 0x100 + c.blue
  {
    Rgb((v / 0x1_0000) % 256, (v / 0x100) % 256, v % 256)
  }

  /** `parseColor`: black for a null or empty string and for anything `Color.decode`
      rejects; a missing "#" is added first. */
  function ParseColor(color: Option<string>): (c: Rgb)
    ensures 0 <= c.red < 256 && 0 <= c.green < 256 && 0 <= c.blue < 256
    ensures color.None? || color == Some("") ==> c == Black
    ensures color.Some? && !Decodable(HexPart(color.value)) ==> c == Black
    ensures color.Some? && Decodable(HexPart(color.value)) && HexValue(HexPart(color.value)) < 0x100_0000 ==>
      HexValue(HexPart(color.value)) == c.red * 0x1_0000 + c.green * 0x100 + c.blue
  {
    match color
    case None => Black
    case Some(s) =>
      if s == "" then Black
      else
        var digits := HexPart(s);
        if Decodable(digits) then RgbOf(HexValue(digits)) else Black
  }

  function HexChar(d: int): (c: char)
    requires 0 <= d < 16
    ensures HexDigit(c) == Some(d)
  {
    if d < 10 then ('0' as int + d) as char else ('a' as int + d - 10) as char
  }

  /** A component as two lower-case hexadecimal digits. */
  function HexByte(n: int): (s: string)
    requires 0 <= n < 256
    ensures |s| == 2 && AllHex(s)
  {
    [HexChar(n / 16), HexChar(n % 16)]
  }

  predicate IsRgb(c: Rgb)
  {
    0 <= c.red < 256 && 0 <= c.green < 256 && 0 <= c.blue < 256
  }

  /** The usual six-digit spelling of a colour, without the "#". */
  function ColorHex(c: Rgb): (s: string)
    requires IsRgb(c)
    ensures |s| == 6 && AllHex(s)
  {
    HexByte(c.red) + HexByte(c.green) + HexByte(c.blue)
  }

  lemma HexValueSnoc(s: string, ch: char)
    requires AllHex(s) && HexDigit(ch).Some?
    ensures AllHex(s + [ch])
    ensures HexValue(s + [ch]) == HexValue(s) * 16 + HexDigit(ch).value
  {
    assert (s + [ch])[..|s + [ch]| - 1] == s;
  }

  /** Appending two digits of a byte shifts the value by a byte. */
  lemma HexValueByte(s: string, n: int)
    requires AllHex(s) && 0 <= n < 256
    ensures AllHex(s + HexByte(n))
    ensures HexValue(s + HexByte(n)) == HexValue(s) * 256 + n
  {
    var hi := HexChar(n / 16);
    var lo := HexChar(n % 16);
    HexValueSnoc(s, hi);
    HexValueSnoc(s + [hi], lo);
    assert s + HexByte(n) == s + [hi] + [lo];
  }

  lemma ColorHexValue(c: Rgb)
    requires IsRgb(c)
    ensures HexValue(ColorHex(c)) == c.red * 0x1_0000 + c.green * 0x100 + c.blue
  {
    HexValueByte([], c.red);
    assert [] + HexByte(c.red) == HexByte(c.red);
    HexValueByte(HexByte(c.red), c.green);
    HexValueByte(HexByte(c.red) + HexByte(c.green), c.blue);
  }

  lemma DivModByte(q: int, r: int)
    requires q >= 0 && 0 <= r < 0x100
    ensures (q * 0x100 + r) / 0x100 == q && (q * 0x100 + r) % 0x100 == r
  {
  }

  lemma DivModTwoBytes(q: int, r: int)
    requires q >= 0 && 0 <= r < 0x1_0000
    ensures (q * 0x1_0000 + r) / 0x1_0000 == q
  {
  }

  /** Splitting a colour's 24-bit value into bytes gives the colour back. */
  lemma RgbOfValue(c: Rgb)
    requires IsRgb(c)
    ensures RgbOf(c.red * 0x1_0000 + c.green * 0x100 + c.blue) == c
  {
    var v := c.red * 0x1_0000 + c.green * 0x100 + c.blue;
    var rg := c.red * 0x100 + c.green;
    assert v == rg * 0x100 + c.blue;
    DivModByte(rg, c.blue);
    DivModByte(c.red, c.green);
    DivModTwoBytes(c.red, c.green * 0x100 + c.blue);
    DivModByte(0, c.red);
  }

  /** Any colour written as six hexadecimal digits, with or without the "#", is parsed
      back to itself. */
  lemma ParseColorRoundTrip(c: Rgb)
    requires IsRgb(c)
    ensures ParseColor(Some(ColorHex(c))) == c
    ensures ParseColor(Some("#" + ColorHex(c))) == c
  {
    var s := ColorHex(c);
    ColorHexValue(c);
    RgbOfValue(c);
    assert !StartsWith(s, "#") by {
      assert HexDigit(s[0]).Some?;
    }
    assert HexPart(s) == s;
    assert StartsWith("#" + s, "#");
    assert HexPart("#" + s) == s;
    assert Decodable(s);
  }

  // ---------------------------------------------------------------------------------
  // Text and watermarks

  /** A page with one more item drawn over what it already draws. */
  function Overlay(p: Page, item: ContentItem): (q: Page)
    ensures q.rotation == p.rotation
    ensures |q.content| == |p.content| + 1 && q.content[..|p.content|] == p.content
    ensures q.content[|p.content|] == item
  {
    p.(content := p.content + [item])
  }

  function InvalidPageMessage(pageNumber: int): string
  {
    "Invalid page number: " + IntToString(pageNumber)
  }

  /** `performAddText`: the text, in Helvetica at the given size and the parsed colour,
      drawn on the one page named (1-based); the font name asked for is ignored. A page
      number out of range is refused unwrapped, and so are the encoder's refusal of a
      character and the writer's refusal of an encrypted input. */
  function PerformAddText(content: Blob, text: string, pageNumber: int, fontSize: int, fontName: string,
                          color: Option<string>): (r: Result<Blob>)
    ensures Load(content, "").Err? ==> r == Err(Wrapped("Failed to add text to PDF: ", Load(content, "").error))
    ensures Load(content, "").Ok? && !(1 <= pageNumber <= |content.doc.pages|) ==>
      r == Fail(PdfProcessing, InvalidPageMessage(pageNumber))
    ensures Load(content, "").Ok? && 1 <= pageNumber <= |content.doc.pages| && !Encodable(text) ==>
      r == Err(ShowText(text, Helvetica).error) && r.error.kind == IllegalArgument
    ensures (Load(content, "").Ok? && 1 <= pageNumber <= |content.doc.pages| && Encodable(text)
             && content.doc.protection.Some?) ==> r == Err(EncryptedSaveError)
    ensures r.Ok? <==> Load(content, "").Ok? && 1 <= pageNumber <= |content.doc.pages| && Encodable(text)
                       && content.doc.protection.None?
    ensures r.Ok? ==>
      var before := content.doc.pages;
      && r.value.Pdf? && |r.value.doc.pages| == |before|
      && r.value.doc.info == content.doc.info && r.value.doc.protection == None
      && r.value.doc.pages[pageNumber - 1] == Overlay(before[pageNumber - 1], TextRun(text, Helvetica, fontSize, ParseColor(color)))
      && forall i :: 0 <= i < |before| && i != pageNumber - 1 ==> r.value.doc.pages[i] == before[i]
  {
    match Load(content, "")
    case Err(e) => Err(Wrapped("Failed to add text to PDF: ", e))
    case Ok(d) =>
      if pageNumber < 1 || pageNumber > |d.pages| then Fail(PdfProcessing, InvalidPageMessage(pageNumber))
      else
        match ShowText(text, Helvetica)
        case Err(e) => Err(e)
        case Ok(_) =>
          var page := Overlay(d.pages[pageNumber - 1], TextRun(text, Helvetica, fontSize, ParseColor(color)));
          SaveLoaded(d.(pages := d.pages[pageNumber - 1 := page]))
  }

  /** What the watermark draws on each page: the text in bold Helvetica, size 50, light
      grey, turned by `rotation` degrees. */
  function WatermarkItem(text: string, rotation: int): ContentItem
  {
    WatermarkText(text, HelveticaBold, 50, LightGray, rotation)
  }

  /** `performAddWatermark`: every page, in turn, gains the watermark over its content.
      The encoder's refusal of a character surfaces at the first page (a document without
      pages never shows the text), and the writer refuses an encrypted input; neither is
      wrapped. */
  method PerformAddWatermark(content: Blob, watermarkText: string, rotation: int) returns (r: Result<Blob>)
    ensures Load(content, "").Err? ==> r == Err(Wrapped("Failed to add watermark: ", Load(content, "").error))
    ensures Load(content, "").Ok? && content.doc.pages != [] && !Encodable(watermarkText) ==>
      r == Err(ShowText(watermarkText, HelveticaBold).error) && r.error.kind == IllegalArgument
    ensures (Load(content, "").Ok? && (content.doc.pages == [] || Encodable(watermarkText))
             && content.doc.protection.Some?) ==> r == Err(EncryptedSaveError)
    ensures r.Ok? <==> Load(content, "").Ok? && (content.doc.pages == [] || Encodable(watermarkText))
                       && content.doc.protection.None?
    ensures r.Ok? ==>
      var before := content.doc.pages;
      && r.value.Pdf? && |r.value.doc.pages| == |before|
      && r.value.doc.info == content.doc.info && r.value.doc.protection == None
      && forall i :: 0 <= i < |before| ==> r.value.doc.pages[i] == Overlay(before[i], WatermarkItem(watermarkText, rotation))
  {
    var loaded := Load(content, "");
    if loaded.Err? {
      return Err(Wrapped("Failed to add watermark: ", loaded.error));
    }
    var d := loaded.value;
    var pages := new Page[|d.pages|](i requires 0 <= i < |d.pages| => d.pages[i]);
    var i := 0;
    while i < pages.Length
      invariant 0 <= i <= pages.Length == |d.pages|
      invariant i > 0 ==> Encodable(watermarkText)
      invariant forall k :: 0 <= k < i ==> pages[k] == Overlay(d.pages[k], WatermarkItem(watermarkText, rotation))
      invariant forall k :: i <= k < pages.Length ==> pages[k] == d.pages[k]
    {
      var shown := ShowText(watermarkText, HelveticaBold);
      if shown.Err? {
        return Err(shown.error);
      }
      pages[i] := Overlay(pages[i], WatermarkItem(watermarkText, rotation));
      i := i + 1;
    }
    r := SaveLoaded(d.(pages := pages[..]));
  }

  /** `performAddImageWatermark` is not implemented: it always throws. */
  function PerformAddImageWatermark(content: Blob, image: Blob, position: string): (r: Result<Blob>)
    ensures r.Err? && r.error.kind == UnsupportedOperation
    ensures r.error.message == Some("Image watermark not yet implemented")
  {
    Fail(UnsupportedOperation, "Image watermark not yet implemented")
  }

  // ---------------------------------------------------------------------------------
  // Rotation

  /** The page `n` (1-based) is rotated: every page when no list is given, otherwise the
      pages the list holds. */
  predicate Targeted(pageNumbers: Option<seq<int>>, n: int)
  {
    pageNumbers.None? || n in pageNumbers.value
  }

  /** `setRotation((getRotation() + angle) % 360)`, with Java's remainder. */
  function RotatePage(p: Page, angle: int): (q: Page)
    ensures q.content == p.content
    ensures -360 < q.rotation < 360
  {
    p.(rotation := JavaRem(p.rotation + angle, 360))
  }

  /** `performRotatePages`: the targeted pages turned by `angle`, every other page as it
      was, the page count kept; the writer refuses an encrypted input, unwrapped. */
  method PerformRotatePages(content: Blob, angle: int, pageNumbers: Option<seq<int>>) returns (r: Result<Blob>)
    ensures Load(content, "").Err? ==> r == Err(Wrapped("Failed to rotate pages: ", Load(content, "").error))
    ensures Load(content, "").Ok? && content.doc.protection.Some? ==> r == Err(EncryptedSaveError)
    ensures r.Ok? <==> Load(content, "").Ok? && content.doc.protection.None?
    ensures r.Ok? ==>
      var before := content.doc.pages;
      && r.value.Pdf? && |r.value.doc.pages| == |before|
      && r.value.doc.info == content.doc.info && r.value.doc.protection == None
      && (forall i :: 0 <= i < |before| && Targeted(pageNumbers, i + 1) ==> r.value.doc.pages[i] == RotatePage(before[i], angle))
      && (forall i :: 0 <= i < |before| && !Targeted(pageNumbers, i + 1) ==> r.value.doc.pages[i] == before[i])
  {
    var loaded := Load(content, "");
    if loaded.Err? {
      return Err(Wrapped("Failed to rotate pages: ", loaded.error));
    }
    var d := loaded.value;
    var pages := new Page[|d.pages|](i requires 0 <= i < |d.pages| => d.pages[i]);
    for i := 0 to pages.Length
      invariant pages.Length == |d.pages|
      invariant forall k :: 0 <= k < i ==> pages[k] == if Targeted(pageNumbers, k + 1) then RotatePage(d.pages[k], angle) else d.pages[k]
      invariant forall k :: i <= k < pages.Length ==> pages[k] == d.pages[k]
    {
      if Targeted(pageNumbers, i + 1) {
        pages[i] := RotatePage(pages[i], angle);
      }
    }
    r := SaveLoaded(d.(pages := pages[..]));
  }

  /** With a normalised rotation and non-negative angles, two rotations are one rotation
      by the sum. */
  lemma RotateTwice(p: Page, a: int, b: int)
    requires 0 <= p.rotation && 0 <= a && 0 <= b
    ensures RotatePage(RotatePage(p, a), b) == RotatePage(p, a + b)
  {
    var x := p.rotation + a;
    var q := x / 360;
    assert x == q * 360 + x % 360;
    assert x % 360 + b == (x + b) - q * 360;
    ModShift(x + b, q);
  }

  lemma {:induction false} ModShift(y: int, q: int)
    requires 0 <= q && q * 360 <= y
    ensures (y - q * 360) % 360 == y % 360
  {
    if q > 0 {
      ModShift(y, q - 1);
      assert y - (q - 1) * 360 == (y - q * 360) + 360;
    }
  }

  /** A full turn leaves a normalised page as it was. */
  lemma FullTurnIsIdentity(p: Page)
    requires 0 <= p.rotation < 360
    ensures RotatePage(p, 360) == p
  {
  }

  // ---------------------------------------------------------------------------------
  // Extraction

  function RangeMessage(fromPage: int, toPage: int, pageCount: int): string
  {
    "Invalid page range: " + IntToString(fromPage) + "-" + IntToString(toPage)
      + " (document has " + IntToString(pageCount) + " pages)"
  }

  predicate ValidRange(fromPage: int, toPage: int, pageCount: int)
  {
    1 <= fromPage && toPage <= pageCount && fromPage <= toPage
  }

  /** `performExtractPages`: the pages `fromPage`..`toPage` (1-based, inclusive), in
      order, added to a new document; a range outside the document is refused unwrapped. */
  method PerformExtractPages(content: Blob, fromPage: int, toPage: int) returns (r: Result<Blob>)
    ensures Load(content, "").Err? ==> r == Err(Wrapped("Failed to extract pages: ", Load(content, "").error))
    ensures Load(content, "").Ok? && !ValidRange(fromPage, toPage, |content.doc.pages|) ==>
      r == Fail(PdfProcessing, RangeMessage(fromPage, toPage, |content.doc.pages|))
    ensures r.Ok? <==> Load(content, "").Ok? && ValidRange(fromPage, toPage, |content.doc.pages|)
    ensures r.Ok? ==>
      && r.value.Pdf? && r.value.doc.info == EmptyInfo && r.value.doc.protection.None?
      && |r.value.doc.pages| == toPage - fromPage + 1
      && forall k :: 0 <= k < |r.value.doc.pages| ==> r.value.doc.pages[k] == content.doc.pages[fromPage - 1 + k]
  {
    var loaded := Load(content, "");
    if loaded.Err? {
      return Err(Wrapped("Failed to extract pages: ", loaded.error));
    }
    var source := loaded.value;
    var numPages := |source.pages|;
    if fromPage < 1 || toPage > numPages || fromPage > toPage {
      return Fail(PdfProcessing, RangeMessage(fromPage, toPage, numPages));
    }
    var newDocument := NewDocument;
    for i := fromPage - 1 to toPage
      invariant newDocument == NewDocument.(pages := source.pages[fromPage - 1..i])
    {
      newDocument := newDocument.(pages := newDocument.pages + [source.pages[i]]);
      assert source.pages[fromPage - 1..i + 1] == source.pages[fromPage - 1..i] + [source.pages[i]];
    }
    r := Ok(Save(newDocument));
  }

  // ---------------------------------------------------------------------------------
  // Information

  datatype PdfInfo = PdfInfo(
    pageCount: int,
    author: Option<string>,
    title: Option<string>,
    subject: Option<string>,
    createdDate: Option<Time>,
    modifiedDate: Option<Time>,
    isEncrypted: bool)

  /** `extractPdfInfo`: the information entries and the page count; it reads the first
      page, so a document without pages fails with the library's index error. */
  function ExtractPdfInfo(content: Blob): (r: Result<PdfInfo>)
    ensures Load(content, "").Err? ==> r == Err(Wrapped("Failed to extract PDF info: ", Load(content, "").error))
    ensures Load(content, "").Ok? && content.doc.pages == [] ==> r.Err? && r.error.kind == IndexOutOfBounds
    ensures r.Ok? <==> Load(content, "").Ok? && content.doc.pages != []
    ensures r.Ok? ==>
      var d := content.doc;
      && r.value.pageCount == |d.pages| && r.value.isEncrypted == d.protection.Some?
      && r.value.author == d.info.author && r.value.title == d.info.title && r.value.subject == d.info.subject
      && r.value.createdDate == d.info.creationDate && r.value.modifiedDate == d.info.modificationDate
  {
    match Load(content, "")
    case Err(e) => Err(Wrapped("Failed to extract PDF info: ", e))
    case Ok(d) =>
      if d.pages == [] then Err(Error(IndexOutOfBounds, None))
      else Ok(PdfInfo(|d.pages|, d.info.author, d.info.title, d.info.subject, d.info.creationDate,
                      d.info.modificationDate, d.protection.Some?))
  }

  // ---------------------------------------------------------------------------------
  // Passwords

  /** The policy `performProtect` applies: the owner password falls back to the user
      password, printing and copying follow the flags, modifying never allowed, 256-bit
      keys. */
  function ProtectionPolicy(userPassword: Option<string>, ownerPassword: Option<string>,
                            allowPrinting: bool, allowCopying: bool): (p: Protection)
    ensures p.userPassword == userPassword
    ensures p.ownerPassword == if ownerPassword.Some? then ownerPassword else userPassword
    ensures p.permissions.canPrint == allowPrinting && p.permissions.canExtractContent == allowCopying
    ensures !p.permissions.canModify && !p.permissions.canModifyAnnotations
    ensures p.keyLength == 256
  {
    Protection(if ownerPassword != None then ownerPassword else userPassword, userPassword,
               Permissions(allowPrinting, allowCopying, false, false), 256)
  }

  /** `performProtect`: the same pages and information under the new policy. */
  function PerformProtect(content: Blob, userPassword: Option<string>, ownerPassword: Option<string>,
                          allowPrinting: bool, allowCopying: bool): (r: Result<Blob>)
    ensures Load(content, "").Err? ==> r == Err(Wrapped("Failed to protect PDF: ", Load(content, "").error))
    ensures r.Ok? <==> Load(content, "").Ok?
    ensures r.Ok? ==> r.value.Pdf? && r.value.doc.pages == content.doc.pages && r.value.doc.info == content.doc.info
    ensures r.Ok? ==> r.value.doc.protection == Some(ProtectionPolicy(userPassword, ownerPassword, allowPrinting, allowCopying))
  {
    match Load(content, "")
    case Err(e) => Err(Wrapped("Failed to protect PDF: ", e))
    case Ok(d) => Ok(Save(d.(protection := Some(ProtectionPolicy(userPassword, ownerPassword, allowPrinting, allowCopying)))))
  }

  /** `performUnlock`: opened with the password given and saved without security. */
  function PerformUnlock(content: Blob, password: Option<string>): (r: Result<Blob>)
    ensures Load(content, PasswordText(password)).Err? ==>
      r == Err(Wrapped("Failed to unlock PDF: ", Load(content, PasswordText(password)).error))
    ensures r.Ok? <==> Load(content, PasswordText(password)).Ok?
    ensures r.Ok? ==> r.value == Save(content.doc.(protection := None))
  {
    match Load(content, PasswordText(password))
    case Err(e) => Err(Wrapped("Failed to unlock PDF: ", e))
    case Ok(d) => Ok(Save(d.(protection := None)))
  }

  /** Protecting and then unlocking, with the user password or with the owner password
      the output was encrypted with, gives back the document without security; a blank
      owner password leaves only the user password to open it with. */
  lemma ProtectThenUnlock(content: Blob, userPassword: Option<string>, ownerPassword: Option<string>,
                          allowPrinting: bool, allowCopying: bool)
    requires Load(content, "").Ok?
    ensures var p := PerformProtect(content, userPassword, ownerPassword, allowPrinting, allowCopying);
      && PerformUnlock(p.value, userPassword) == Ok(Save(content.doc.(protection := None)))
      && PerformUnlock(p.value, Some(OwnerKey(ProtectionPolicy(userPassword, ownerPassword, allowPrinting, allowCopying))))
         == Ok(Save(content.doc.(protection := None)))
      && (PasswordText(ownerPassword) == "" ==>
            OwnerKey(ProtectionPolicy(userPassword, ownerPassword, allowPrinting, allowCopying)) == PasswordText(userPassword))
  {
  }

  /** Output protected with a non-empty user password can no longer be opened without
      one, whatever the owner password (a blank one falls back to the user password), so
      the transforms that load it without a password fail. */
  lemma ProtectedOutputNeedsPassword(content: Blob, userPassword: string, ownerPassword: Option<string>,
                                     allowPrinting: bool, allowCopying: bool)
    requires Load(content, "").Ok? && userPassword != ""
    ensures var p := PerformProtect(content, Some(userPassword), ownerPassword, allowPrinting, allowCopying);
      && Load(p.value, "").Err?
      && PerformProtect(p.value, None, None, true, true).Err?
      && ExtractPdfInfo(p.value).Err?
  {
  }
}
