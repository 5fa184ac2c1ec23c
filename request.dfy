/** Validation of the bank letter and program range, and construction of the
    bulk patch dump request sent to the DeepMind. */
module Request {
  import opened Results

  /** The bank letters and their indexes, as the tool's BANKS table. */
  const Banks: map<string, nat> :=
    map["A" := 0, "B" := 1, "C" := 2, "D" := 3, "E" := 4, "F" := 5, "G" := 6, "H" := 7]

  const BankLetters: string := "ABCDEFGH"

  predicate IsLowerAscii(c: char)
  {
    'a' <= c <= 'z'
  }

  /** Upper-casing of one character, for the ASCII letters: a lower-case
      letter becomes the capital at the same place in the alphabet, and any
      other character is kept. */
  function UpperChar(c: char): (r: char)
    ensures !IsLowerAscii(r)
    ensures IsLowerAscii(c) ==> 'A' <= r <= 'Z' && r as int - 'A' as int == c as int - 'a' as int
    ensures !IsLowerAscii(c) ==> r == c
  {
    if 'a' <= c <= 'z' then (c as int - 'a' as int + 'A' as int) as char else c
  }

  /** `str.upper` on the ASCII letters: exactly the lower-case letters
      change, and none remains. */
  function Upper(s: string): (r: string)
    ensures |r| == |s|
    ensures forall i :: 0 <= i < |s| ==> (r[i] == s[i] <==> !IsLowerAscii(s[i]))
    ensures forall i :: 0 <= i < |r| ==> !IsLowerAscii(r[i])
  {
    seq(|s|, i requires 0 <= i < |s| => UpperChar(s[i]))
  }

  /** Upper-casing twice is upper-casing once. */
  lemma UpperIdempotent(s: string)
    ensures Upper(Upper(s)) == Upper(s)
  {
  }

  /** The bank key lookup: exactly the letters A..H in either case name a
      bank, and bank i is the i-th letter. */
  function BankIndex(arg: string): (r: Result<nat>)
    ensures r.Ok? <==> |arg| == 1 && ('A' <= arg[0] <= 'H' || 'a' <= arg[0] <= 'h')
    ensures r.Err? ==> r.error == UnknownBank
    ensures r.Ok? ==> r.value < 8 && BankLetters[r.value] == UpperChar(arg[0])
  {
    var key := Upper(arg);
    BankKeys(key);
    if key in Banks then Ok(Banks[key]) else Err(UnknownBank)
  }

  /** The keys of the table are the one-letter strings A..H. */
  lemma BankKeys(key: string)
    ensures key in Banks <==> |key| == 1 && 'A' <= key[0] <= 'H'
    ensures key in Banks ==> Banks[key] < 8 && BankLetters[Banks[key]] == key[0]
  {
    if |key| == 1 && 'A' <= key[0] <= 'H' {
      var c := key[0];
      assert key == [c];
      assert c == 'A' || c == 'B' || c == 'C' || c == 'D' || c == 'E' || c == 'F' || c == 'G' || c == 'H';
    }
  }

  /** A MIDI System Exclusive message as a list of byte values: framed by
      F0 and F7, every value in between a 7-bit data byte. */
  predicate IsSysEx(m: seq<int>)
  {
    |m| >= 2 && m[0] == 0xF0 && m[|m| - 1] == 0xF7 &&
    forall i :: 0 < i < |m| - 1 ==> 0 <= m[i] < 0x80
  }

  /** The range checks of the tool, in its order: the first program number,
      then the last. */
  function CheckRange(first: int, last: int): (r: Result<()>)
    ensures r.Ok? <==> 0 <= first <= last <= 127
    ensures r.Err? ==> (r.error == FirstOutOfRange <==> first < 0 || first > 127)
    ensures r.Err? ==> r.error == FirstOutOfRange || r.error == LastOutOfRange
  {
    if first < 0 || first > 127 then Err(FirstOutOfRange)
    else if last < first || last > 127 then Err(LastOutOfRange)
    else Ok(())
  }

  /** The bulk dump request: bank lookup, range checks, then the 11-byte
      message F0 00 20 32 20 00 09 bank first last F7. */
  function BuildRequest(bankArg: string, first: int, last: int): (r: Result<seq<int>>)
    ensures r.Ok? <==> BankIndex(bankArg).Ok? && 0 <= first <= last <= 127
    ensures BankIndex(bankArg).Err? ==> r == Err(UnknownBank)
    ensures BankIndex(bankArg).Ok? ==> r.Err? == CheckRange(first, last).Err?
    ensures BankIndex(bankArg).Ok? && r.Err? ==> r.error == CheckRange(first, last).error
    ensures r.Ok? ==> |r.value| == 11 && IsSysEx(r.value)
    ensures r.Ok? ==> r.value[..7] == [0xF0, 0x00, 0x20, 0x32, 0x20, 0x00, 0x09]
    ensures r.Ok? ==> r.value[7] == BankIndex(bankArg).value && r.value[8] == first && r.value[9] == last
  {
    match BankIndex(bankArg)
    case Err(e) => Err(e)
    case Ok(bank) =>
      match CheckRange(first, last)
      case Err(e) => Err(e)
      case Ok(_) =>
        Ok([0xF0, 0x00, 0x20, 0x32, 0x20, 0x00, 0x09, bank, first, last, 0xF7])
  }

  /** The number of replies a valid request asks for: one per program. */
  function ExpectedCount(first: int, last: int): (n: nat)
    requires 0 <= first <= last <= 127
    ensures 1 <= n <= 128
    ensures n == 128 <==> first == 0 && last == 127
    ensures n == 1 <==> first == last
  {
    1 + (last - first)
  }

  /** Bank C, programs 10 to 15. */
  lemma RequestExample()
    ensures BuildRequest("C", 10, 15)
         == Ok([0xF0, 0x00, 0x20, 0x32, 0x20, 0x00, 0x09, 0x02, 0x0A, 0x0F, 0xF7])
    ensures BuildRequest("c", 10, 15) == BuildRequest("C", 10, 15)
  {
    BankKeys("C");
  }
}
