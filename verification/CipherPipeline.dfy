/** The cipher of A3 from end to end: encode and print (A3/h2/client.c), then read back, decode
    and write (A3/h1/server.c). */
module CipherPipeline {
  import opened Decimal
  import opened Rotation

  const KEY := 2  // the key of both programs; the laws below hold for every key from 1 to 24

  type Byte = n: int | 0 <= n < 256

  /** A C string: whatever precedes the terminating zero. */
  predicate IsCString(line: seq<Byte>) {
    forall i :: 0 <= i < |line| ==> line[i] != 0
  }

  /** `char` is signed. */
  function CharToInt(b: Byte): int {
    if b < 128 then b else b - 256
  }

  function IntToChar(n: int): Byte {
    n % 256
  }

  // ---------- the client: characters to text ----------

  function Token(b: Byte, key: nat): string
    requires key <= 32
  {
    Printed(Encode(CharToInt(b), key)) + " "
  }

  function EncodedChars(line: seq<Byte>, key: nat): string
    requires key <= 32
  {
    if line == [] then "" else Token(line[0], key) + EncodedChars(line[1..], key)
  }

  function EncodedFile(lines: seq<seq<Byte>>, key: nat): string
    requires key <= 32
  {
    if lines == [] then "" else EncodedChars(lines[0], key) + ("\n" + EncodedFile(lines[1..], key))
  }

  lemma {:induction false} EncodedCharsSnoc(line: seq<Byte>, b: Byte, key: nat)
    requires key <= 32
    ensures EncodedChars(line + [b], key) == EncodedChars(line, key) + Token(b, key)
  {
    if line == [] {
      assert [b][1..] == [];
    } else {
      assert (line + [b])[1..] == line[1..] + [b];
      EncodedCharsSnoc(line[1..], b, key);
    }
  }

  lemma {:induction false} EncodedFileSnoc(lines: seq<seq<Byte>>, line: seq<Byte>, key: nat)
    requires key <= 32
    ensures EncodedFile(lines + [line], key) == EncodedFile(lines, key) + (EncodedChars(line, key) + "\n")
  {
    if lines == [] {
      assert [line][1..] == [];
    } else {
      assert (lines + [line])[1..] == lines[1..] + [line];
      EncodedFileSnoc(lines[1..], line, key);
    }
  }

  lemma EncodedPrefix(line: seq<Byte>, j: nat, key: nat)
    requires key <= 32 && j < |line|
    ensures EncodedChars(line[..j + 1], key) == EncodedChars(line[..j], key) + Token(line[j], key)
  {
    assert line[..j + 1] == line[..j] + [line[j]];
    EncodedCharsSnoc(line[..j], line[j], key);
  }

  /** The inner loop of lines 80-87: one token and a blank per character. */
  method EncodeLine(arr: seq<Byte>, key: nat) returns (wFile: string)
    requires key <= 32
    ensures wFile == EncodedChars(arr, key)
  {
    wFile := "";
    for j := 0 to |arr|
      invariant wFile == EncodedChars(arr[..j], key)
    {
      var buffer := Printed(Encode(CharToInt(arr[j]), key));
      EncodedPrefix(arr, j, key);
      wFile := wFile + (buffer + " ");
    }
    assert arr[..|arr|] == arr;
  }

  lemma EncodedLinesPrefix(lines: seq<seq<Byte>>, i: nat, key: nat)
    requires key <= 32 && i < |lines|
    ensures EncodedFile(lines[..i + 1], key) == EncodedFile(lines[..i], key) + (EncodedChars(lines[i], key) + "\n")
  {
    assert lines[..i + 1] == lines[..i] + [lines[i]];
    EncodedFileSnoc(lines[..i], lines[i], key);
  }

  /** The outer loop of lines 78-90: a newline after every line. */
  method EncodeLines(lines: seq<seq<Byte>>, key: nat) returns (wFile: string)
    requires key <= 32
    ensures wFile == EncodedFile(lines, key)
  {
    wFile := "";
    for i := 0 to |lines|
      invariant wFile == EncodedFile(lines[..i], key)
    {
      var tokens := EncodeLine(lines[i], key);
      EncodedLinesPrefix(lines, i, key);
      wFile := wFile + (tokens + "\n");
    }
    assert lines[..|lines|] == lines;
  }

  // ---------- the server: text to characters ----------

  /** The values the `fscanf("%d\t")` loop reads before it meets something else. */
  function ReadIntegers(text: string): seq<int>
    decreases |text|
  {
    match ScanInt(text)
    case NoMatch => []
    case Match(v, rest) => [v] + ReadIntegers(SkipSpaces(rest))
  }

  /** `fputs` of the string with the one character n; character zero writes nothing. */
  function CharString(n: int): seq<Byte> {
    if IntToChar(n) == 0 then [] else [IntToChar(n)]
  }

  function Written(value: int, key: nat): seq<Byte>
    requires key <= 32
  {
    CharString(Decode(value, key))
  }

  function DecodedValues(values: seq<int>, key: nat): seq<Byte>
    requires key <= 32
  {
    if values == [] then [] else Written(values[0], key) + DecodedValues(values[1..], key)
  }

  function DecodedFile(text: string, key: nat): seq<Byte>
    requires key <= 32
  {
    DecodedValues(ReadIntegers(text), key)
  }

  /** The loop of lines 109-115. */
  method DecodeText(text: string, key: nat) returns (file: seq<Byte>)
    requires key <= 32
    ensures file == DecodedFile(text, key)
  {
    file := [];
    var received_file := text;
    while true
      invariant file + DecodedValues(ReadIntegers(received_file), key) == DecodedFile(text, key)
      decreases |received_file|
    {
      var scan := ScanInt(received_file);
      if scan.NoMatch? {
        break;
      }
      ghost var later := ReadIntegers(SkipSpaces(scan.rest));
      assert ([scan.value] + later)[1..] == later;
      file := file + Written(scan.value, key);
      received_file := SkipSpaces(scan.rest);
    }
  }

  // ---------- the round trip ----------

  function Flatten(lines: seq<seq<Byte>>): seq<Byte> {
    if lines == [] then [] else lines[0] + Flatten(lines[1..])
  }

  /** What becomes of a character on the way through both programs. */
  function Survivor(b: Byte): Byte {
    if b < 128 then b else 255
  }

  function Survivors(line: seq<Byte>): (r: seq<Byte>)
    ensures |r| == |line|
    ensures forall i :: 0 <= i < |line| ==> r[i] == Survivor(line[i])
  {
    if line == [] then [] else [Survivor(line[0])] + Survivors(line[1..])
  }

  lemma Pow2AtLeast128(k: nat)
    requires k >= 7
    ensures Pow2(k) >= 128
  {
    Pow2Sum(7, k - 7);
    assert Pow2(7) == 128;
    assert 128 * Pow2(k - 7) >= 128;
  }

  /** Under any key up to 24 the first 127 characters survive, and all others become -1. */
  lemma DecodedCharacter(b: Byte, key: nat)
    requires 1 <= key <= 24
    ensures Decode(Encode(CharToInt(b), key), key) == if b < 128 then b else -1
  {
    if b < 128 {
      Pow2AtLeast128(31 - key);
      EncodeMultiplies(b, key);
      DecodeUndoesEncodeIff(b, key);
    } else {
      NegativeDecodesToMinusOne(b - 256, key);
    }
  }

  lemma SurvivorString(b: Byte)
    requires b != 0
    ensures CharString(if b < 128 then b else -1) == [Survivor(b)]
  {
  }

  lemma CharacterThrough(b: Byte, key: nat)
    requires b != 0 && 1 <= key <= 24
    ensures Written(Encode(CharToInt(b), key), key) == [Survivor(b)]
  {
    DecodedCharacter(b, key);
    SurvivorString(b);
  }

  lemma {:induction false} SkipSpacesTwice(s: string)
    ensures SkipSpaces(SkipSpaces(s)) == SkipSpaces(s)
    ensures ScanInt(SkipSpaces(s)) == ScanInt(s)
    ensures ReadIntegers(SkipSpaces(s)) == ReadIntegers(s)
  {
    if s != "" && IsSpace(s[0]) {
      SkipSpacesTwice(s[1..]);
    }
  }

  lemma ReadBlank(c: char, rest: string)
    requires IsSpace(c)
    ensures ReadIntegers([c] + rest) == ReadIntegers(rest)
  {
    assert ([c] + rest)[1..] == rest;
    SkipSpacesTwice([c] + rest);
    SkipSpacesTwice(rest);
  }

  lemma ReadToken(v: int, rest: string)
    ensures ReadIntegers(Printed(v) + (" " + rest)) == [v] + ReadIntegers(rest)
  {
    ScanPrinted(v, " " + rest);
    SkipSpacesTwice(" " + rest);
    ReadBlank(' ', rest);
  }

  lemma DecodedHead(v: int, values: seq<int>, key: nat)
    requires key <= 32
    ensures DecodedValues([v] + values, key) == Written(v, key) + DecodedValues(values, key)
  {
    assert ([v] + values)[1..] == values;
  }

  lemma Prepend(b: Byte, y: seq<Byte>, z: seq<Byte>)
    ensures [b] + (y + z) == ([b] + y) + z
  {
  }

  lemma ReadChar(b: Byte, tail: string, key: nat)
    requires b != 0 && 1 <= key <= 24
    ensures DecodedFile(Token(b, key) + tail, key) == [Survivor(b)] + DecodedFile(tail, key)
  {
    var v := Encode(CharToInt(b), key);
    assert Token(b, key) + tail == Printed(v) + (" " + tail);
    ReadToken(v, tail);
    DecodedHead(v, ReadIntegers(tail), key);
    CharacterThrough(b, key);
  }

  lemma {:induction false} ReadChars(line: seq<Byte>, rest: string, key: nat)
    requires IsCString(line) && 1 <= key <= 24
    ensures DecodedFile(EncodedChars(line, key) + rest, key) == Survivors(line) + DecodedFile(rest, key)
  {
    if line == [] {
      assert "" + rest == rest;
    } else {
      var tail := EncodedChars(line[1..], key) + rest;
      Regroup(Token(line[0], key), EncodedChars(line[1..], key), rest);
      ReadChar(line[0], tail, key);
      ReadChars(line[1..], rest, key);
      Prepend(Survivor(line[0]), Survivors(line[1..]), DecodedFile(rest, key));
    }
  }

  lemma SurvivorsOfConcat(a: seq<Byte>, b: seq<Byte>)
    ensures Survivors(a + b) == Survivors(a) + Survivors(b)
  {
  }

  /** What the server writes for any lines the client encodes. */
  lemma {:induction false} PipelineResult(lines: seq<seq<Byte>>, key: nat)
    requires 1 <= key <= 24 && forall i :: 0 <= i < |lines| ==> IsCString(lines[i])
    ensures DecodedFile(EncodedFile(lines, key), key) == Survivors(Flatten(lines))
  {
    if lines == [] {
    } else {
      var later := EncodedFile(lines[1..], key);
      ReadChars(lines[0], "\n" + later, key);
      ReadBlank('\n', later);
      PipelineResult(lines[1..], key);
      SurvivorsOfConcat(lines[0], Flatten(lines[1..]));
    }
  }

  /** The pipeline returns its input exactly when no character lies in 128..254. */
  lemma RoundTripIff(lines: seq<seq<Byte>>, key: nat)
    requires 1 <= key <= 24 && forall i :: 0 <= i < |lines| ==> IsCString(lines[i])
    ensures DecodedFile(EncodedFile(lines, key), key) == Flatten(lines) <==>
      forall i :: 0 <= i < |Flatten(lines)| ==> Flatten(lines)[i] < 128 || Flatten(lines)[i] == 255
  {
    PipelineResult(lines, key);
    var f := Flatten(lines);
    if forall i :: 0 <= i < |f| ==> f[i] < 128 || f[i] == 255 {
      assert Survivors(f) == f;
    } else {
      var i :| 0 <= i < |f| && !(f[i] < 128 || f[i] == 255);
      assert Survivors(f)[i] != f[i];
    }
  }

  /** With the programs' own key a character below 128 is written as four times its code, and
      every other one as -1. */
  lemma TokenWithShippedKey(b: Byte)
    ensures Token(b, KEY) == Printed(if b < 128 then 4 * b else -1) + " "
  {
    assert Pow2(2) == 4;
    if b < 128 {
      Pow2AtLeast128(29);
      EncodeMultiplies(b, KEY);
    } else {
      Pow2AtLeast128(30);
      NegativeIsDivided(b - 256, KEY);
      RightShift(-1, b - 256 + Pow2(30), Pow2(30));
    }
  }

  /** A single integer in the text, whatever it is: its decoded low byte is written, but a zero byte
      writes nothing; a text that does not begin with an integer ends the loop. */
  lemma DecodedToken(v: int, rest: string, key: nat)
    requires key <= 32
    ensures DecodedFile(Printed(v) + (" " + rest), key) ==
      (if Decode(v, key) % 256 == 0 then [] else [Decode(v, key) % 256]) + DecodedFile(rest, key)
    ensures ScanInt(rest).NoMatch? ==> DecodedFile(rest, key) == []
  {
    ReadToken(v, rest);
    DecodedHead(v, ReadIntegers(rest), key);
  }
}
