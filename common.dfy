/** Values shared by every service of the PDF utility backend: optional values (Java's
    nullable references), results of calls that may throw, the exception classes of the
    common library, clock instants, bytes, and the string helpers the services rely on. */
module Common {

  /** A nullable reference: `None` plays the part of Java's `null`. */
  datatype Option<+T> = None | Some(value: T)

  /** The outcome of a call that either returns a value or throws. */
  datatype Result<+T> = Ok(value: T) | Err(error: Error)

  /** The exception classes the services throw, by kind. */
  datatype ErrorKind =
    | PdfProcessing          // PdfProcessingException
    | Storage                // StorageException
    | ResourceNotFound       // ResourceNotFoundException
    | Authentication         // AuthenticationException
    | UnsupportedOperation   // UnsupportedOperationException
    | IllegalArgument        // IllegalArgumentException
    | IllegalState           // IllegalStateException
    | IndexOutOfBounds       // IndexOutOfBoundsException
    | Io                     // IOException raised by the PDF library
    | Validation             // a request body rejected by bean validation
    | DataAccess             // TransientDataAccessResourceException from the R2DBC template

  /** A thrown exception: its class and what `getMessage()` returns (possibly null). */
  datatype Error = Error(kind: ErrorKind, message: Option<string>)

  function Fail<T>(kind: ErrorKind, message: string): Result<T>
  {
    Err(Error(kind, Some(message)))
  }

  /** A `LocalDateTime`, as milliseconds on one clock. */
  type Time = int

  newtype byte = x: int | 0 <= x < 256

  type Bytes = seq<byte>

  /** Java's `String.valueOf` of a nullable string: a null reference prints as "null". */
  function Text(s: Option<string>): string
  {
    match s
    case Some(v) => v
    case None => "null"
  }

  /** `String.valueOf(boolean)`, and `%b` of a non-null Boolean. */
  function BoolText(b: bool): string
  {
    if b then "true" else "false"
  }

  predicate StartsWith(s: string, prefix: string)
  {
    |prefix| <= |s| && s[..|prefix|] == prefix
  }

  predicate InfixAt(s: string, infix: string, i: int)
  {
    0 <= i <= |s| - |infix| && s[i..i + |infix|] == infix
  }

  predicate Contains(s: string, infix: string)
  {
    exists i | 0 <= i <= |s| - |infix| :: InfixAt(s, infix, i)
  }

  /** Java's `%` on `int`: the remainder takes the sign of the dividend. */
  function JavaRem(a: int, b: int): (r: int)
    requires b > 0
    ensures -b < r < b
    ensures a >= 0 ==> r >= 0
    ensures a < 0 ==> r <= 0
  {
    if a >= 0 then a % b else -((-a) % b)
  }

  /** Java's `/` on integers: the quotient is truncated toward zero. */
  function JavaDiv(a: int, b: int): (q: int)
    requires b > 0
    ensures a >= 0 ==> q * b <= a < q * b + b
    ensures a < 0 ==> q * b - b < a <= q * b
  {
    if a >= 0 then a / b else -((-a) / b)
  }

  function DigitChar(d: int): char
    requires 0 <= d < 10
  {
    "0123456789"[d]
  }

  /** The decimal text of a natural number, as `Long.toString` prints it. */
  function NatToString(n: nat): (s: string)
    ensures |s| > 0
    decreases n
  {
    if n < 10 then [DigitChar(n)] else NatToString(n / 10) + [DigitChar(n % 10)]
  }

  /** The decimal text of an integer, as `%d` prints it. */
  function IntToString(i: int): string
  {
    if i < 0 then "-" + NatToString(-i) else NatToString(i)
  }

  /** `String.toLowerCase` restricted to the ASCII letters. */
  function AsciiLower(c: char): char
  {
    if 'A' <= c <= 'Z' then (c as int + 32) as char else c
  }

  function LowerCase(s: string): (r: string)
    ensures |r| == |s|
    ensures forall i :: 0 <= i < |s| ==> r[i] == AsciiLower(s[i])
  {
    if s == [] then [] else [AsciiLower(s[0])] + LowerCase(s[1..])
  }
}
