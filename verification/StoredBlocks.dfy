// A reader of what lies around the compressed blocks, written from the formats: the headers of gzip and
// zlib (RFC 1952, section 2.3; RFC 1950, section 2.2), stored blocks (RFC 1951, section 3.2.4) and the
// checksum and size at the end.

module StoredBlocks {
  import opened LzCore

  datatype Option<T> = Some(value: T) | None

  // ---------- Numbers ----------

  function LowestFirst(s: seq<Byte>): nat {
    if s == [] then 0 else s[0] + 256 * LowestFirst(s[1..])
  }

  function HighestFirst(s: seq<Byte>): nat {
    if s == [] then 0 else 256 * HighestFirst(s[..|s| - 1]) + s[|s| - 1]
  }

  // ---------- Headers ----------

  // Behind the zero that ends a file name.
  function BehindName(s: seq<Byte>): Option<seq<Byte>> {
    if s == [] then None else if s[0] == 0 then Some(s[1..]) else BehindName(s[1..])
  }

  // The magic bytes, method 8, no flag but the one for a name, six bytes of time and system, the name.
  function ReadGzipHeader(s: seq<Byte>): Option<seq<Byte>> {
    if |s| < 10 || s[0] != 31 || s[1] != 139 || s[2] != 8 then None
    else if s[3] == 0 then Some(s[10..])
    else if s[3] == 8 then BehindName(s[10..])
    else None
  }

  // Method 8 with a window of at most 32 KB, a check that makes the two bytes a multiple of 31, no
  // dictionary.
  function ReadZlibHeader(s: seq<Byte>): Option<seq<Byte>> {
    if |s| < 2 || ZlibMethod(s[0]) != 8 || ZlibWindow(s[0]) > 7 || !Checked(s[0], s[1]) || HasDictionary(s[1]) then None
    else Some(s[2..])
  }

  function ZlibMethod(b: nat): nat {
    b % 16
  }

  function ZlibWindow(b: nat): nat {
    b / 16
  }

  predicate Checked(cmf: nat, flg: nat) {
    (256 * cmf + flg) % 31 == 0
  }

  predicate HasDictionary(b: nat) {
    b / 32 % 2 == 1
  }

  function ReadHeader(gzip: bool, s: seq<Byte>): Option<seq<Byte>> {
    if gzip then ReadGzipHeader(s) else ReadZlibHeader(s)
  }

  // ---------- Stored blocks ----------

  datatype Stored = Stored(final: bool, data: seq<Byte>, rest: seq<Byte>)

  // Bit 0 says whether the block is the last, bits 1 and 2 are 0 for a stored block, and the rest of
  // the byte is skipped; then the length, its complement, and as many bytes.
  function ReadStored(s: seq<Byte>): (r: Option<Stored>)
    ensures r.Some? ==> |r.value.rest| < |s|
  {
    if |s| < 5 || BlockKind(s[0]) != 0 then None
    else
      var len, nlen := LowestFirst(s[1..3]), LowestFirst(s[3..5]);
      if len + nlen != 0xffff || |s| < 5 + len then None else Some(Stored(IsFinal(s[0]), s[5..5 + len], s[5 + len..]))
  }

  function BlockKind(b: nat): nat {
    b / 2 % 4
  }

  predicate IsFinal(b: nat) {
    b % 2 == 1
  }

  // ---------- The end of a stream ----------

  datatype Tail = Tail(data: seq<Byte>, checksum: nat, size: nat, rest: seq<Byte>)

  // Stored blocks up to the last one, then for gzip checksum and size, lowest byte first, and for zlib
  // the checksum, highest byte first.
  function ReadTail(gzip: bool, s: seq<Byte>): Option<Tail>
    decreases |s|
  {
    match ReadStored(s)
    case None => None
    case Some(Stored(true, data, rest)) =>
      if gzip then (if |rest| < 8 then None else Some(Tail(data, LowestFirst(rest[..4]), LowestFirst(rest[4..8]), rest[8..])))
      else (if |rest| < 4 then None else Some(Tail(data, HighestFirst(rest[..4]), 0, rest[4..])))
    case Some(Stored(false, data, rest)) =>
      match ReadTail(gzip, rest)
      case None => None
      case Some(t) => Some(t.(data := data + t.data))
  }

  // The bytes are a header, the body, and stored blocks with the tail, checksum and size behind it.
  ghost predicate ReadsAs(gzip: bool, bytes: seq<Byte>, body: seq<Byte>, tail: seq<Byte>, checksum: nat, size: nat) {
    exists ahead :: ReadHeader(gzip, bytes) == Some(body + ahead)
                    && ReadTail(gzip, ahead) == Some(Tail(tail, checksum % 0x1_0000_0000, if gzip then size % 0x1_0000_0000 else 0, []))
  }

  lemma SizeWraps(gzip: bool, bytes: seq<Byte>, body: seq<Byte>, tail: seq<Byte>, checksum: nat, size: nat, size': nat)
    requires ReadsAs(gzip, bytes, body, tail, checksum, size) && size % 0x1_0000_0000 == size' % 0x1_0000_0000
    ensures ReadsAs(gzip, bytes, body, tail, checksum, size')
  {
    hide ReadHeader, ReadTail;
  }
}
