/** An abstract PDF document: what the services read from and write to PDF files, at the
    level of pages, what each page draws, the document information dictionary and the
    encryption settings. Stored content is either a document or bytes the library cannot
    parse. */
module Documents {
  import opened Common

  /** A colour with 8-bit components. */
  datatype Rgb = Rgb(red: int, green: int, blue: int)

  const Black := Rgb(0, 0, 0)
  /** `Color.LIGHT_GRAY` */
  const LightGray := Rgb(192, 192, 192)

  datatype Font = Helvetica | HelveticaBold

  /** One thing a page draws: content the page came with, or a text run appended by the
      edit service (positions, opacity and the watermark's centring are not modelled). */
  datatype ContentItem =
    | Drawn(tag: string)
    | TextRun(text: string, font: Font, fontSize: int, color: Rgb)
    | WatermarkText(text: string, font: Font, fontSize: int, color: Rgb, rotation: int)

  /** A page: its /Rotate value and its content, in drawing order. */
  datatype Page = Page(rotation: int, content: seq<ContentItem>)

  /** The document information dictionary; a missing entry is `None`. */
  datatype DocInfo = DocInfo(
    author: Option<string>,
    title: Option<string>,
    subject: Option<string>,
    keywords: Option<string>,
    creator: Option<string>,
    producer: Option<string>,
    creationDate: Option<Time>,
    modificationDate: Option<Time>)

  const EmptyInfo := DocInfo(None, None, None, None, None, None, None, None)

  datatype Permissions = Permissions(canPrint: bool, canExtractContent: bool, canModify: bool, canModifyAnnotations: bool)

  /** The standard security handler's settings; a null password is `None`. */
  datatype Protection = Protection(ownerPassword: Option<string>, userPassword: Option<string>,
                                   permissions: Permissions, keyLength: int)

  datatype Document = Document(pages: seq<Page>, info: DocInfo, protection: Option<Protection>)

  /** A new, empty document. */
  const NewDocument := Document([], EmptyInfo, None)

  /** Stored content: a PDF, or bytes the library rejects, with the reason it gives. */
  datatype Blob = Pdf(doc: Document) | Unreadable(reason: string)

  /** The library treats a null password as the empty one. */
  function PasswordText(p: Option<string>): string
  {
    match p
    case Some(s) => s
    case None => ""
  }

  /** The owner password the standard security handler encrypts with: a null or empty
      owner password is replaced by the user password when the document is protected. */
  function OwnerKey(p: Protection): (k: string)
    ensures PasswordText(p.ownerPassword) != "" ==> k == PasswordText(p.ownerPassword)
    ensures PasswordText(p.ownerPassword) == "" ==> k == PasswordText(p.userPassword)
  {
    if PasswordText(p.ownerPassword) == "" then PasswordText(p.userPassword) else PasswordText(p.ownerPassword)
  }

  /** `Loader.loadPDF(bytes, password)`: unparsable bytes fail with the library's reason;
      an encrypted document opens only with its user password or the owner password it
      was encrypted with. */
  function Load(b: Blob, password: string): (r: Result<Document>)
    ensures r.Err? ==> r.error.kind == Io && r.error.message.Some?
    ensures r.Ok? <==> b.Pdf? && (b.doc.protection.Some? ==>
      password == PasswordText(b.doc.protection.value.userPassword) ||
      password == OwnerKey(b.doc.protection.value))
    ensures r.Ok? ==> r.value == b.doc
  {
    match b
    case Unreadable(reason) => Fail(Io, reason)
    case Pdf(d) =>
      if d.protection.Some? && password != PasswordText(d.protection.value.userPassword)
         && password != OwnerKey(d.protection.value)
      then Fail(Io, "Cannot decrypt PDF, the password is incorrect")
      else Ok(d)
  }

  // ---------------------------------------------------------------------------------
  // Showing text in a standard 14 font

  /** The characters outside Latin-1 that WinAnsiEncoding places in positions 0x80 to
      0x9F. */
  const WinAnsiExtras: set<char> := {
    '\U{20AC}', '\U{201A}', '\U{0192}', '\U{201E}', '\U{2026}', '\U{2020}', '\U{2021}', '\U{02C6}', '\U{2030}',
    '\U{0160}', '\U{2039}', '\U{0152}', '\U{017D}', '\U{2018}', '\U{2019}', '\U{201C}', '\U{201D}', '\U{2022}',
    '\U{2013}', '\U{2014}', '\U{02DC}', '\U{2122}', '\U{0161}', '\U{203A}', '\U{0153}', '\U{017E}', '\U{0178}'}

  /** The characters a standard 14 Type 1 font can show under WinAnsiEncoding: printable
      ASCII, Latin-1 from U+00A1 on except the soft hyphen (its position is named "hyphen",
      the no-break space's "space"), and the extras above. */
  predicate WinAnsiChar(c: char)
  {
    (' ' <= c <= '~') || ('\U{00A1}' <= c <= '\U{00FF}' && c != '\U{00AD}') || c in WinAnsiExtras
  }

  predicate Encodable(text: string)
  {
    forall i :: 0 <= i < |text| ==> WinAnsiChar(text[i])
  }

  /** The font's base name, as the library reports it. */
  function FontName(f: Font): string
  {
    match f
    case Helvetica => "Helvetica"
    case HelveticaBold => "Helvetica-Bold"
  }

  function UpperHexDigit(d: nat): char
    requires d < 16
  {
    if d < 10 then ('0' as int + d) as char else ('A' as int + d - 10) as char
  }

  /** `%0<width>X`: `n` in upper-case hexadecimal, padded with zeros to `width` digits. */
  function UpperHex(n: nat, width: nat): (s: string)
    ensures |s| >= 1 && |s| >= width
    decreases n + width
  {
    if n < 16 && width <= 1 then [UpperHexDigit(n)]
    else UpperHex(n / 16, if width > 0 then width - 1 else 0) + [UpperHexDigit(n % 16)]
  }

  /** The error the font's encoder raises for a character the encoding lacks (the glyph
      name the library puts in the message is not modelled). */
  function UnavailableGlyph(c: char, f: Font): Error
  {
    Error(IllegalArgument, Some("U+" + UpperHex(c as nat, 4) + " is not available in the font " + FontName(f)
                                + ", encoding: WinAnsiEncoding"))
  }

  /** `contentStream.showText(text)`: every character is encoded in turn, and the first
      one the encoding lacks raises an `IllegalArgumentException`. */
  function ShowText(text: string, f: Font): (r: Result<()>)
    ensures r.Ok? <==> Encodable(text)
    ensures r.Err? ==> exists i :: 0 <= i < |text| && !WinAnsiChar(text[i]) && r.error == UnavailableGlyph(text[i], f)
  {
    if text == [] then Ok(())
    else if !WinAnsiChar(text[0]) then Err(UnavailableGlyph(text[0], f))
    else
      var rest := ShowText(text[1..], f);
      assert forall i :: 1 <= i < |text| ==> text[i] == text[1..][i - 1];
      rest
  }

  // ---------------------------------------------------------------------------------
  // Saving

  /** `document.save(...)` */
  function Save(d: Document): Blob
  {
    Pdf(d)
  }

  /** The writer's refusal of a loaded encrypted document that was given neither a new
      protection policy nor an order to drop its security. */
  const EncryptedSaveError := Error(IllegalState, Some(
    "PDF contains an encryption dictionary, please remove it with setAllSecurityToBeRemoved() "
    + "or set a protection policy with protect()"))

  /** `document.save(...)` of a document loaded and changed in place without `protect` or
      `setAllSecurityToBeRemoved`: it is written out only when it was not encrypted. */
  function SaveLoaded(d: Document): (r: Result<Blob>)
    ensures r.Ok? <==> d.protection.None?
    ensures r.Ok? ==> r.value == Save(d) && Load(r.value, "") == Ok(d)
    ensures r.Err? ==> r.error == EncryptedSaveError
  {
    if d.protection.Some? then Err(EncryptedSaveError) else Ok(Save(d))
  }

  /** A saved document without a user password loads back as itself, which is how every
      service reads its input (`Loader.loadPDF(bytes)` with no password). */
  lemma LoadSaved(d: Document)
    requires d.protection.None? || PasswordText(d.protection.value.userPassword) == ""
    ensures Load(Save(d), "") == Ok(d)
  {
  }
}
