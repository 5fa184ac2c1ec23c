/** Decoding of one patch reply: the packed block between the 10-byte header
    and the terminator, the patch name in the unpacked parameters, the bank
    and program fields of the header, and the output file name built from them. */
module PatchDecode {
  import opened Results
  import opened Packing
  import Request

  /** Python slicing `s[start:stop]` with non-negative bounds: both are
      clamped to the length, and an empty range gives an empty slice. */
  function ClampedSlice<T>(s: seq<T>, start: nat, stop: nat): (r: seq<T>)
    ensures |r| == (if start < stop && start < |s| then (if stop < |s| then stop else |s|) - start else 0)
    ensures forall i :: 0 <= i < |r| ==> r[i] == s[start + i]
  {
    var hi := if stop < |s| then stop else |s|;
    if start < hi then s[start..hi] else []
  }

  /** `p[10:-1]`: everything after the 10 header bytes except the last byte. */
  function PackedBlock(p: seq<byte>): (r: seq<byte>)
    ensures |p| >= 11 ==> r == p[10..|p| - 1]
    ensures |p| < 11 ==> r == []
  {
    ClampedSlice(p, 10, if |p| >= 1 then |p| - 1 else 0)
  }

  /** A reply laid out as header, packed block and terminator gives back its block. */
  lemma PackedBlockOfReply(header: seq<byte>, block: seq<byte>, terminator: byte)
    requires |header| == 10
    ensures PackedBlock(header + block + [terminator]) == block
  {
    var p := header + block + [terminator];
    assert p[10..|p| - 1] == block;
  }

  /** The character with the code of a 7-bit byte. */
  function ByteChar(b: byte): (c: char)
    requires b < 0x80
  {
    (b as int) as char
  }

  /** ASCII decoding: fails on any byte of 128 or more. */
  function DecodeAscii(b: seq<byte>): (r: Result<string>)
    ensures r.Ok? <==> forall i :: 0 <= i < |b| ==> b[i] < 0x80
    ensures r.Err? ==> r.error == NameNotAscii
    ensures r.Ok? ==> |r.value| == |b| && forall i :: 0 <= i < |b| ==> r.value[i] == ByteChar(b[i])
  {
    if forall i :: 0 <= i < |b| ==> b[i] < 0x80 then
      Ok(seq(|b|, i requires 0 <= i < |b| => ByteChar(b[i])))
    else
      Err(NameNotAscii)
  }

  predicate IsNul(c: char)
  {
    c == '\0'
  }

  /** The characters below 128 that Python's `str.isspace` accepts: tab,
      line feed, vertical tab, form feed, carriage return, the four
      information separators 1C..1F, and space. */
  predicate IsPySpace(c: char)
    // NUL is not whitespace, so stripping NULs and stripping whitespace differ
    ensures IsPySpace(c) ==> !IsNul(c) && c as int <= 0x20
  {
    var k := c as int;
    k == 0x20 || 0x09 <= k <= 0x0D || 0x1C <= k <= 0x1F
  }

  /** `rstrip`: drop the longest suffix of characters that satisfy `strip`. */
  function TrimTrailing(s: string, strip: char -> bool): (r: string)
    ensures r <= s
    ensures forall i :: |r| <= i < |s| ==> strip(s[i])
    ensures r == [] || !strip(r[|r| - 1])
    decreases |s|
  {
    if s != [] && strip(s[|s| - 1]) then TrimTrailing(s[..|s| - 1], strip) else s
  }

  /** The three properties of TrimTrailing determine its result. */
  lemma TrimTrailingUnique(s: string, strip: char -> bool, t: string)
    requires t <= s
    requires forall i :: |t| <= i < |s| ==> strip(s[i])
    requires t == [] || !strip(t[|t| - 1])
    ensures t == TrimTrailing(s, strip)
  {
  }

  /** The name field: bytes 223..238 of the unpacked parameters. */
  const NameStart: nat := 223
  const NameEnd: nat := 239

  /** The patch name: the name field decoded as ASCII, trailing NULs
      stripped, then trailing whitespace stripped. */
  function PatchName(unpacked: seq<byte>): (r: Result<string>)
    ensures r.Ok? <==> forall i :: NameStart <= i < NameEnd && i < |unpacked| ==> unpacked[i] < 0x80
    ensures r.Err? ==> r.error == NameNotAscii
    ensures r.Ok? ==> |r.value| <= NameEnd - NameStart
    // leading characters are untouched: the name is a prefix of the field
    ensures r.Ok? ==>
      forall i :: 0 <= i < |r.value| ==>
        NameStart + i < |unpacked| && unpacked[NameStart + i] < 0x80 && r.value[i] == ByteChar(unpacked[NameStart + i])
    ensures r.Ok? ==> r.value == [] || !IsPySpace(r.value[|r.value| - 1])
  {
    var field := ClampedSlice(unpacked, NameStart, NameEnd);
    assert forall i :: NameStart <= i < NameEnd && i < |unpacked| ==> unpacked[i] == field[i - NameStart];
    match DecodeAscii(field)
    case Err(e) => Err(e)
    case Ok(text) =>
      var name := TrimTrailing(TrimTrailing(text, IsNul), IsPySpace);
      PrefixOfPrefix(name, TrimTrailing(text, IsNul), text);
      Ok(name)
  }

  lemma PrefixOfPrefix(a: string, b: string, c: string)
    requires a <= b && b <= c
    ensures a <= c && forall i :: 0 <= i < |a| ==> a[i] == c[i]
  {
    assert forall i :: 0 <= i < |a| ==> a[i] == b[i] == c[i];
  }

  /** The decoded field is the name, then whitespace, then NULs: the NUL
      strip stops at the last non-NUL character, and everything between it
      and the name is whitespace. With the last ensures of PatchName this
      determines the name. */
  lemma PatchNameTail(unpacked: seq<byte>)
    requires PatchName(unpacked).Ok?
    ensures var text := DecodeAscii(ClampedSlice(unpacked, NameStart, NameEnd)).value;
            var name := PatchName(unpacked).value;
            var m := |TrimTrailing(text, IsNul)|;
            && name <= text
            && |name| <= m <= |text|
            && (forall i :: |name| <= i < m ==> IsPySpace(text[i]))
            && (forall i :: m <= i < |text| ==> IsNul(text[i]))
            && (m == 0 || !IsNul(text[m - 1]))
  {
    var text := DecodeAscii(ClampedSlice(unpacked, NameStart, NameEnd)).value;
    var noNul := TrimTrailing(text, IsNul);
    var name := PatchName(unpacked).value;
    PrefixOfPrefix(name, noNul, text);
    assert forall i :: |name| <= i < |noNul| ==> text[i] == noNul[i] && IsPySpace(text[i]);
  }

  /** A name field "Lead 1" padded with ten NULs gives the name "Lead 1". */
  lemma PatchNameExample(header: seq<byte>)
    requires |header| == NameStart
    ensures PatchName(header + [0x4C, 0x65, 0x61, 0x64, 0x20, 0x31, 0, 0, 0, 0, 0, 0, 0, 0, 0, 0]) == Ok("Lead 1")
  {
    var field: seq<byte> := [0x4C, 0x65, 0x61, 0x64, 0x20, 0x31, 0, 0, 0, 0, 0, 0, 0, 0, 0, 0];
    assert ClampedSlice(header + field, NameStart, NameEnd) == field;
    var text := "Lead 1\0\0\0\0\0\0\0\0\0\0";
    assert DecodeAscii(field) == Ok(text) by {
      assert ByteChar(0x4C) == 'L' && ByteChar(0x65) == 'e' && ByteChar(0x61) == 'a';
      assert ByteChar(0x64) == 'd' && ByteChar(0x20) == ' ' && ByteChar(0x31) == '1';
      assert ByteChar(0) == '\0';
      assert forall i :: 0 <= i < |field| ==> field[i] < 0x80;
      var d := DecodeAscii(field).value;
      assert forall i :: 0 <= i < 16 ==> d[i] == text[i];
      assert d == text;
    }
    TrimLeadOne();
  }

  lemma TrimLeadOne()
    ensures TrimTrailing(TrimTrailing("Lead 1\0\0\0\0\0\0\0\0\0\0", IsNul), IsPySpace) == "Lead 1"
  {
    TrimTrailingUnique("Lead 1\0\0\0\0\0\0\0\0\0\0", IsNul, "Lead 1");
    TrimTrailingUnique("Lead 1", IsPySpace, "Lead 1");
  }

  // Decimal formatting of the program label, as `f"{n:03}"`.

  function DigitChar(d: nat): (c: char)
    requires d < 10
  {
    ('0' as int + d) as char
  }

  predicate IsDigits(s: string)
  {
    forall i :: 0 <= i < |s| ==> '0' <= s[i] <= '9'
  }

  /** `str(n)`: the decimal digits of n, most significant first. */
  function Digits(n: nat): (s: string)
    ensures 1 <= |s| && IsDigits(s)
    decreases n
  {
    if n < 10 then [DigitChar(n)] else Digits(n / 10) + [DigitChar(n % 10)]
  }

  /** The value of a string of decimal digits. */
  function DecimalValue(s: string): nat
    requires IsDigits(s)
    decreases |s|
  {
    if s == [] then 0 else 10 * DecimalValue(s[..|s| - 1]) + (s[|s| - 1] as int - '0' as int)
  }

  /** Zero padding on the left to a minimum width. */
  function ZeroPad(s: string, width: nat): (r: string)
    ensures |r| == if |s| < width then width else |s|
    ensures r[|r| - |s|..] == s
    ensures forall i :: 0 <= i < |r| - |s| ==> r[i] == '0'
  {
    if |s| < width then seq(width - |s|, _ => '0') + s else s
  }

  /** `f"{n:03}"`: decimal digits that read back as n, zero-padded to at
      least three characters, and exactly three for every n below 1000. */
  function FormatProgram(n: nat): (s: string)
    ensures IsDigits(s) && DecimalValue(s) == n
    ensures |s| >= 3
    ensures n < 1000 ==> |s| == 3
  {
    var d := Digits(n);
    DigitsValue(n);
    DigitsWidth(n);
    if |d| < 3 then LeadingZeros(3 - |d|, d); ZeroPad(d, 3) else ZeroPad(d, 3)
  }

  lemma {:induction false} DigitsValue(n: nat)
    ensures DecimalValue(Digits(n)) == n
    decreases n
  {
    if n >= 10 {
      DigitsValue(n / 10);
      var s := Digits(n);
      assert s[..|s| - 1] == Digits(n / 10);
    }
  }

  /** Leading zeros do not change a decimal value. */
  lemma {:induction false} LeadingZeros(z: nat, s: string)
    requires IsDigits(s)
    ensures IsDigits(seq(z, _ => '0') + s)
    ensures DecimalValue(seq(z, _ => '0') + s) == DecimalValue(s)
    decreases |s|
  {
    var zs: string := seq(z, _ => '0');
    if s == [] {
      assert zs + s == zs;
      AllZeros(z);
    } else {
      var t := zs + s;
      assert t[..|t| - 1] == zs + s[..|s| - 1];
      LeadingZeros(z, s[..|s| - 1]);
    }
  }

  lemma {:induction false} AllZeros(z: nat)
    ensures DecimalValue(seq(z, _ => '0')) == 0
    decreases z
  {
    if z > 0 {
      var zs: string := seq(z, _ => '0');
      assert zs[..z - 1] == seq(z - 1, _ => '0');
      AllZeros(z - 1);
    }
  }

  /** Numbers below 1000 have at most three digits. */
  lemma DigitsWidth(n: nat)
    ensures n < 1000 ==> |Digits(n)| <= 3
  {
    if n < 1000 {
      assert n >= 10 ==> |Digits(n)| == |Digits(n / 10)| + 1;
      assert n / 10 >= 10 ==> |Digits(n / 10)| == |Digits(n / 100)| + 1;
    }
  }

  /** The output file name `{Letter}_{program:03}_{name}.sysex`: the letter
      and an underscore, the program label, then an underscore, the name and
      the suffix. */
  function FileName(letter: char, program: nat, name: string): (r: string)
    ensures var shown := FormatProgram(program);
            && 2 + |shown| <= |r|
            && r[..2] == [letter, '_']
            && r[2..2 + |shown|] == shown
            && r[2 + |shown|..] == "_" + name + ".sysex"
  {
    var shown := FormatProgram(program);
    ConcatParts([letter, '_'], shown, "_" + name + ".sysex");
    [letter, '_'] + shown + ("_" + name + ".sysex")
  }

  /** The three parts of a concatenation can be sliced back out of it. */
  lemma ConcatParts<T>(a: seq<T>, b: seq<T>, c: seq<T>)
    ensures |a| + |b| <= |a + b + c|
    ensures (a + b + c)[..|a|] == a
    ensures (a + b + c)[|a|..|a| + |b|] == b
    ensures (a + b + c)[|a| + |b|..] == c
  {
  }

  /** For a program below 1000 the file name splits back into its parts:
      the letter, the three-digit label, the name and the `.sysex` suffix. */
  lemma FileNameFields(letter: char, program: nat, name: string)
    requires program < 1000
    ensures var f := FileName(letter, program, name);
            |f| == |name| + 12 && f[0] == letter && f[1] == '_' && f[5] == '_'
            && IsDigits(f[2..5]) && DecimalValue(f[2..5]) == program
            && f[6..|f| - 6] == name && f[|f| - 6..] == ".sysex"
  {
    var f := FileName(letter, program, name);
    var shown := FormatProgram(program);
    assert f == [letter] + "_" + shown + "_" + name + ".sysex";
    assert f[2..5] == shown;
    assert f[6..|f| - 6] == name;
  }

  /** What the tool derives from one reply. */
  datatype PatchRecord = PatchRecord(
    bank: char,          // the bank letter A..H
    program: nat,        // the 1-based program number
    name: string,        // the trimmed patch name
    fileName: string,    // the output file name
    packed: seq<byte>,   // the packed block, for the lookup table
    raw: seq<byte>)      // the whole reply, for the patch file

  /** The per-patch steps of the tool, in its order: unpack the packed block,
      decode the name, then read the bank (byte 8) and program (byte 9). */
  function DecodePatch(p: seq<byte>): (r: Result<PatchRecord>)
    ensures Unpack(PackedBlock(p)).Err? ==> r == Err(ChunkLength)
    ensures Unpack(PackedBlock(p)).Ok? ==>
      (PatchName(Unpack(PackedBlock(p)).value).Err? ==> r == Err(NameNotAscii))
    ensures Unpack(PackedBlock(p)).Ok? && PatchName(Unpack(PackedBlock(p)).value).Ok? ==>
      (r.Ok? <==> |p| >= 10 && p[8] < 8) && (r.Err? ==> r.error == HeaderIndex)
    ensures r.Ok? ==>
      && r.value.raw == p
      && r.value.packed == PackedBlock(p)
      && Unpack(r.value.packed).Ok?
      && PatchName(Unpack(r.value.packed).value) == Ok(r.value.name)
      && |p| >= 10 && p[8] < 8
      && r.value.bank == Request.BankLetters[p[8] as int]
      && r.value.program == p[9] as int + 1 && 1 <= r.value.program <= 256
      && r.value.fileName == FileName(r.value.bank, r.value.program, r.value.name)
  {
    var packed := PackedBlock(p);
    match Unpack(packed)
    case Err(e) => Err(e)
    case Ok(unpacked) =>
      match PatchName(unpacked)
      case Err(e) => Err(e)
      case Ok(name) =>
        if |p| <= 8 || p[8] >= 8 || |p| <= 9 then Err(HeaderIndex)
        else
          var letter := Request.BankLetters[p[8] as int];
          var program := p[9] as int + 1;
          Ok(PatchRecord(letter, program, name, FileName(letter, program, name), packed, p))
  }

  /** A reply whose data bytes are 7-bit, whose packed block is whole chunks
      and whose bank byte is a valid bank decodes without error. */
  lemma SevenBitReplyDecodes(p: seq<byte>)
    requires |p| >= 11 && (|p| - 11) % 8 == 0
    requires forall i :: 0 < i < |p| - 1 ==> p[i] < 0x80
    requires p[8] < 8
    ensures DecodePatch(p).Ok?
  {
    var packed := PackedBlock(p);
    assert forall i :: 0 <= i < |packed| ==> packed[i] == p[10 + i];
    UnpackLength(packed);
    UnpackSevenBit(packed);
  }
}
