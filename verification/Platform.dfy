/** What the model takes from the Go runtime without modelling its insides.
    Each table is a constant that may be anything its subset type allows, so a
    theorem about it holds for every table of that kind, the real one included. */
module Platform {

  /** unicode.IsSpace */
  predicate IsSpace(c: char) {
    || c == ' '
    || '\t' <= c <= '\r'
    || c == '\U{85}'
    || c == '\U{A0}'
    || c == '\U{1680}'
    || '\U{2000}' <= c <= '\U{200A}'
    || c == '\U{2028}'
    || c == '\U{2029}'
    || c == '\U{202F}'
    || c == '\U{205F}'
    || c == '\U{3000}'
  }

  /** The class \s of a Go regular expression, which is ASCII and leaves out the
      vertical tab. */
  predicate IsBlank(c: char) {
    c == ' ' || c == '\t' || c == '\n' || c == '\U{0C}' || c == '\r'
  }

  predicate NotBlank(c: char) {
    !IsBlank(c)
  }

  predicate IsAscii(c: char) {
    c < '\U{80}'
  }

  /** unicode.IsPrint, which strconv.Quote uses as well. The one printable white
      space is the ASCII blank. */
  type PrintTable = f: char -> bool |
      && (forall c :: f(c) && IsSpace(c) ==> c == ' ')
      && (forall c :: IsAscii(c) ==> (f(c) <==> ' ' <= c <= '~'))
    witness c => ' ' <= c <= '~'

  const PRINTABLE: PrintTable

  /** unicode.ToLower and unicode.ToUpper, one rune at a time. */
  type LowerTable = f: char -> char |
      forall c :: IsAscii(c) ==> f(c) == (if 'A' <= c <= 'Z' then ((c as int) + 32) as char else c)
    witness c => if 'A' <= c <= 'Z' then ((c as int) + 32) as char else c

  type UpperTable = f: char -> char |
      forall c :: IsAscii(c) ==> f(c) == (if 'a' <= c <= 'z' then ((c as int) - 32) as char else c)
    witness c => if 'a' <= c <= 'z' then ((c as int) - 32) as char else c

  const LOWER_OF: LowerTable
  const UPPER_OF: UpperTable

  /** What netip.ParseAddr makes of a text. */
  datatype Address =
    | NoAddress
    | IPv4
    | IPv6(mapped: bool, zoned: bool)

  predicate IsAddressChar(c: char) {
    '0' <= c <= '9' || 'a' <= c <= 'f' || 'A' <= c <= 'F' || c == '.' || c == ':'
  }

  /** An address without an interface zone is written in hexadecimal digits, dots
      and colons. What follows the percent sign of a zone is free text, and no address
      starts with its zone. */
  type AddressReader = f: string -> Address |
      && (forall s :: f(s) != NoAddress ==> s != "" && IsAddressChar(s[0]))
      && forall s :: f(s).IPv4? || (f(s).IPv6? && !f(s).zoned) ==> forall i :: 0 <= i < |s| ==> IsAddressChar(s[i])
    witness s => NoAddress

  const PARSE_ADDR: AddressReader

  /** SHA-256 in hexadecimal, never empty and different for different contents: what it
      makes of a content, and the content it was made of. */
  type Hashing = h: (string -> string, string -> string) | forall s :: h.0(s) != "" && h.1(h.0(s)) == s
    witness (s => s + "#", t => if t == "" then "" else t[..|t| - 1])

  const HASH: Hashing

  function DigestOf(content: string): string {
    HASH.0(content)
  }

  lemma DigestTells(a: string, b: string)
    ensures DigestOf(b) != "" && (DigestOf(a) == DigestOf(b) ==> a == b)
  {
    assert HASH.1(DigestOf(a)) == a && HASH.1(DigestOf(b)) == b;
  }

  datatype Option<+T> = None | Some(value: T)

  /** The classes of refusal an operation on the records file can end in. */
  datatype Error = Invalid | Duplicate | NameTaken | NotFound

  datatype Result<+T> = Success(value: T) | Failure(error: Error)
}
