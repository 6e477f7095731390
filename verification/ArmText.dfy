/** Numbers and lists of numbers in sysfs files (arm_util.c). */
module ArmText {
  import opened CText
  import opened Options

  // ----- single numbers ------------------------------------------------------------------------

  const SIZE: nat := 32

  /** write_file_ui64: the buffer holds the digits, a NUL and whatever was on the stack. */
  function Written(val: U64Word, stack: string): string
    requires |stack| == SIZE
  {
    WordDigits(val);
    Digits(val) + [NUL] + stack[|Digits(val)| + 1..]
  }

  /** A file read and written at its start. */
  class File {
    var data: string

    constructor (text: string)
      ensures data == text
    {
      data := text;
    }

    /** `accepted` is what the system call answers: how many bytes it took, or at most 0. */
    method WriteNumber(val: U64Word, stack: string, accepted: int) returns (bytes: int)
      requires |stack| == SIZE && accepted <= SIZE
      modifies this
      ensures bytes == if accepted <= 0 then 0 else accepted
      ensures data == if accepted <= 0 then old(data) else Overwrite(old(data), Written(val, stack)[..accepted])
    {
      var buf := Written(val, stack);
      if accepted <= 0 { return 0; }
      data := Overwrite(data, buf[..accepted]);
      bytes := accepted;
    }

    /** Reads into a buffer with old stack contents and scans it; `val` is kept when there is no digit.  A
        failing read returns -1 and leaves the stack contents to the scanner. */
    method ReadNumber(val0: U64Word, stack: string, failed: bool) returns (bytes: int, val: U64Word)
      requires |stack| == SIZE
      ensures bytes == if failed then -1 else if |data| < SIZE then |data| else SIZE
      ensures val == if failed then Scanned(stack, val0) else NumberRead(data, stack, val0)
    {
      bytes := if failed then -1 else if |data| < SIZE then |data| else SIZE;
      val := val0;
      if bytes == 0 { return; }
      var buf := if failed then stack else data[..bytes] + stack[bytes..];
      match ScanUnsigned(buf) {
        case Some(v) => val := v;
        case None =>
      }
    }
  }

  function Overwrite(data: string, bytes: string): string {
    bytes + if |bytes| < |data| then data[|bytes|..] else ""
  }

  function Scanned(buf: string, val0: U64Word): U64Word {
    match ScanUnsigned(buf)
    case Some(v) => v
    case None => val0
  }

  function NumberRead(data: string, stack: string, val0: U64Word): U64Word
    requires |stack| == SIZE
  {
    var bytes := if |data| < SIZE then |data| else SIZE;
    if bytes == 0 then val0 else Scanned(data[..bytes] + stack[bytes..], val0)
  }

  /** The file byte by byte after a write: the digits, a NUL, what was on the stack up to the last byte
      accepted, and from there on what was in the file before. */
  lemma BytesWritten(val: U64Word, stack: string, data: string, accepted: nat, k: nat)
    requires |stack| == 32 && 0 < accepted <= 32
    ensures var file := Overwrite(data, Written(val, stack)[..accepted]);
            && |file| == (if accepted < |data| then |data| else accepted)
            && (k < |file| ==>
                  file[k] == if k >= accepted then data[k]
                             else if k < |Digits(val)| then Digits(val)[k]
                             else if k == |Digits(val)| then '\0'
                             else stack[k])
  {
    WordDigits(val);
    hide Digits;
  }

  /** Writing any word and reading it back returns it, whatever was in the file and on the stack, as
      soon as the digits and the NUL after them were accepted. */
  lemma NumberRoundTrip(val: U64Word, data: string, stack: string, accepted: nat, stack2: string, val0: U64Word)
    requires |stack| == |stack2| == 32 && |Digits(val)| < accepted <= 32
    ensures NumberRead(Overwrite(data, Written(val, stack)[..accepted]), stack2, val0) == val
  {
    var text := Overwrite(data, Written(val, stack)[..accepted]);
    var n := |Digits(val)|;
    assert text[..n] == Digits(val) && text[n] == NUL;
    TerminatedNumber(val, text, stack2, val0);
  }

  /** A file that starts with a number's digits and a character that ends them is read as that number. */
  lemma TerminatedNumber(val: U64Word, text: string, stack: string, val0: U64Word)
    requires |stack| == 32 && |Digits(val)| < |text|
    requires text[..|Digits(val)|] == Digits(val) && !IsDigit(text[|Digits(val)|])
    ensures NumberRead(text, stack, val0) == val
  {
    WordDigits(val);
    var n, bytes := |Digits(val)|, if |text| < SIZE then |text| else SIZE;
    var buf := text[..bytes] + stack[bytes..];
    assert buf == Digits(val) + buf[n..];
    ScanTerminated(val, buf[n..]);
    DigitsRoundTrip(val);
  }

  /** From an empty file, or one without a digit that ends the number, nothing is read. */
  lemma NothingRead(text: string, stack: string, val0: U64Word)
    requires |stack| == 32 && (text == "" || Ends(text[0]))
    ensures NumberRead(text, stack, val0) == val0
  {
    if text != "" {
      var bytes := if |text| < SIZE then |text| else SIZE;
      var buf := text[..bytes] + stack[bytes..];
      ScansNothing("", "", buf);
      assert "" + ("" + buf) == buf;
    }
  }

  /** Digits that go on after a string of digits are part of the same number. */
  lemma {:induction false} DigitRunGoesOn(s: string, rest: string)
    requires AllDigits(s)
    ensures DigitRun(s + rest) == s + DigitRun(rest)
  {
    if s == "" {
      assert s + rest == rest;
    } else {
      assert (s + rest)[1..] == s[1..] + rest;
      DigitRunGoesOn(s[1..], rest);
    }
  }

  lemma {:induction false} NumberGrows(s: string, t: string)
    requires AllDigits(s) && AllDigits(t)
    ensures AllDigits(s + t) && Number(s) <= Number(s + t)
    decreases |t|
  {
    if t == "" {
      assert s + t == s;
    } else {
      assert (s + t)[..|s + t| - 1] == s + t[..|t| - 1];
      NumberGrows(s, t[..|t| - 1]);
    }
  }

  lemma ScanGoesOn(n: nat, rest: string)
    ensures Scan(Digits(n) + rest) == (false, Digits(n) + DigitRun(rest))
  {
    DigitsRoundTrip(n);
    assert Digits(n)[0] in Digits(n);
    DigitRunGoesOn(Digits(n), rest);
  }

  /** What is read from a file that holds just a number's digits. */
  lemma JustDigits(val: U64Word, stack: string, val0: U64Word)
    requires |stack| == SIZE
    ensures |Digits(val)| < SIZE
    ensures var digits := Digits(val) + DigitRun(stack[|Digits(val)|..]);
            && AllDigits(digits) && Number(digits) >= val
            && NumberRead(Digits(val), stack, val0) == if Number(digits) < U64 then Number(digits) else U64 - 1
  {
    WordDigits(val);
    DigitsRoundTrip(val);
    var n := |Digits(val)|;
    var rest := stack[n..];
    assert Digits(val)[..n] == Digits(val);
    ScanGoesOn(val, rest);
    NumberGrows(Digits(val), DigitRun(rest));
    hide Digits, DigitRun, Scan, Number, AllDigits;
  }

  /** Without a character that ends the number the stack's old contents can become part of it.  Only the
      greatest word is read correctly whatever is on the stack, because the scanner saturates there. */
  lemma UnterminatedExactly(val: U64Word)
    ensures (forall stack: string, val0: U64Word :: |stack| == 32 ==> NumberRead(Digits(val), stack, val0) == val)
            <==> val == 0xFFFF_FFFF_FFFF_FFFF
  {
    if val == U64 - 1 {
      forall stack: string, val0: U64Word | |stack| == SIZE
        ensures NumberRead(Digits(val), stack, val0) == val
      {
        JustDigits(val, stack, val0);
      }
    } else {
      var stack := Misread(val);
    }
  }

  /** A digit on the stack, right behind the file's last. */
  lemma Misread(val: U64Word) returns (stack: string)
    requires val != U64 - 1
    ensures |stack| == SIZE && NumberRead(Digits(val), stack, 0) != val
  {
    WordDigits(val);
    var n := |Digits(val)|;
    stack := seq(SIZE, i => if i == n then '1' else NUL);
    JustDigits(val, stack, 0);
    OneMore(val, stack[n..]);
    hide Digits, DigitRun, Number, AllDigits, NumberRead;
  }

  lemma OneMore(val: nat, rest: string)
    requires |rest| > 1 && rest[0] == '1' && rest[1] == NUL
    ensures AllDigits(Digits(val) + DigitRun(rest)) && Number(Digits(val) + DigitRun(rest)) == 10 * val + 1
  {
    DigitsRoundTrip(val);
    assert rest[1..][0] == NUL;
    assert DigitRun(rest) == "1";
    assert (Digits(val) + "1")[..|Digits(val)|] == Digits(val);
  }

  /** For instance a file that holds just "1". */
  lemma UnterminatedNumber()
    ensures exists stack: string :: |stack| == SIZE && NumberRead("1", stack, 0) != 1
  {
    assert Digits(1) == "1";
    var stack := Misread(1);
  }

  // ----- arrays --------------------------------------------------------------------------------

  function Spaces(s: string): nat {
    if s == "" then 0 else Spaces(s[..|s| - 1]) + if s[|s| - 1] == ' ' then 1 else 0
  }

  /** What the array holds for a line: as many elements as the line has spaces, from the tokens in
      order; elements for which there is no token are never set. */
  function Elements(line: string): seq<Option<U64Word>> {
    var tokens := Tokens(line, BLANK, BLANKS);
    seq(Spaces(line), i requires 0 <= i => if i < |tokens| then Some(ScanSigned(tokens[i])) else None)
  }

  /** The counting loop: the pointer moves over other characters, the counter over spaces, and the
      character looked at is the one at their sum. */
  method CountSpaces(buf: array<char>, ghost end: nat) returns (nfreq: nat)
    requires Line(buf[..], 0, end)
    ensures nfreq == Spaces(buf[..end])
  {
    var fptr := 0;
    nfreq := 0;
    while buf[fptr + nfreq] != NUL
      invariant fptr + nfreq <= end
      invariant nfreq == Spaces(buf[..fptr + nfreq])
      decreases end - (fptr + nfreq)
    {
      ghost var done := fptr + nfreq;
      assert buf[..done + 1][..done] == buf[..done];
      if buf[fptr + nfreq] == ' ' { nfreq := nfreq + 1; } else { fptr := fptr + 1; }
    }
  }

  /** read_array_ui64, on a buffer into which `bytesRead` bytes were read. */
  method ReadArray(buf: array<char>, bytesRead: int, ghost end: nat) returns (nfreq: nat, values: array<U64Word>)
    requires bytesRead != 0 ==> Line(buf[..], 0, end)
    modifies buf
    ensures bytesRead == 0 ==> nfreq == 0 && buf[..] == old(buf[..])
    ensures bytesRead != 0 ==> nfreq == values.Length && Holds(values[..], old(buf[..end]))
  {
    if bytesRead == 0 {
      nfreq, values := 0, new U64Word[0];
      return;
    }
    hide Holds, Tokens, Spaces;
    ghost var line := buf[..end];
    assert buf[0..end] == line;
    nfreq := CountSpaces(buf, end);
    values := new U64Word[nfreq];
    ReadTokens(buf, values, end, Tokens(line, BLANK, BLANKS));
    ElementsHold(values[..], line);
  }

  /** The loop over tokens: stops at the last token or when the array is full. */
  method ReadTokens(buf: array<char>, values: array<U64Word>, ghost end: nat, ghost tokens: seq<string>)
    requires Line(buf[..], 0, end) && tokens == Tokens(buf[0..end], BLANK, BLANKS)
    modifies buf, values
    ensures forall i :: 0 <= i < values.Length && i < |tokens| ==> values[i] == ScanSigned(tokens[i])
  {
    hide *;
    var tok, save, stop := NextPending(buf, 0, BLANK, BLANKS, end, tokens);
    var iter := 0;
    while tok != None && iter < values.Length
      invariant iter <= values.Length && iter <= |tokens|
      invariant tok == None <==> iter == |tokens|
      invariant tok != None ==> Pending(buf[..], tok.value, stop, save, end, BLANKS, tokens[iter..])
      invariant forall i :: 0 <= i < iter ==> values[i] == ScanSigned(tokens[i])
      decreases values.Length - iter
    {
      ghost var text := buf[..];
      PendingScan(text, tok.value, stop, save, end, BLANKS, tokens[iter..]);
      LineFits(text, save, end);
      assert text[tok.value..] == buf[tok.value..] && text[save..end] == buf[save..end];
      values[iter] := ScanSigned(buf[tok.value..]);
      assert tokens[iter..][1..] == tokens[iter + 1..];
      iter := iter + 1;
      tok, save, stop := NextPending(buf, save, BLANKS, BLANKS, end, tokens[iter..]);
    }
  }

  lemma ElementsHold(values: seq<U64Word>, line: string)
    requires |values| == Spaces(line)
    requires var tokens := Tokens(line, BLANK, BLANKS);
             forall i :: 0 <= i < |values| && i < |tokens| ==> values[i] == ScanSigned(tokens[i])
    ensures Holds(values, line)
  {
    hide Spaces, Tokens, ScanSigned;
  }

  /** The array agrees with the elements a line gives, where they are set. */
  predicate Holds(values: seq<U64Word>, line: string) {
    && |values| == |Elements(line)|
    && forall i :: 0 <= i < |values| && Elements(line)[i].Some? ==> values[i] == Elements(line)[i].value
  }

  // ----- lists ---------------------------------------------------------------------------------

  /** A list as the kernel prints it: every number followed by a space, and then `tail`. */
  function Printed(vals: seq<U64Word>, tail: string): string {
    if vals == [] then tail else Digits(vals[0]) + (" " + Printed(vals[1..], tail))
  }

  lemma {:induction false} SpacesAdd(s: string, t: string)
    ensures Spaces(s + t) == Spaces(s) + Spaces(t)
    decreases |t|
  {
    if t == "" {
      assert s + t == s;
    } else {
      assert (s + t)[..|s + t| - 1] == s + t[..|t| - 1];
      SpacesAdd(s, t[..|t| - 1]);
    }
  }

  lemma {:induction false} NoSpaces(s: string)
    requires ' ' !in s
    ensures Spaces(s) == 0
  {
    if s != "" { NoSpaces(s[..|s| - 1]); }
  }

  /** A printed number is the first token, and what follows its space is left. */
  lemma FirstToken(n: nat, rest: string, first: string)
    requires first == BLANK || first == BLANKS
    ensures Tokens(Digits(n) + (" " + rest), first, BLANKS) == [Digits(n)] + Tokens(rest, BLANKS, BLANKS)
  {
    hide Tokens, Digits, Skip, Take, AllDigits;
    var digits, s := Digits(n), Digits(n) + (" " + rest);
    DigitsRoundTrip(n);
    DigitsNotBlank(digits, first);
    SkipNone(s, first);
    TakeAll(digits, " " + rest, first);
    TokensStep(s, first, BLANKS);
    assert After(s, digits) == rest;
  }

  lemma DigitsNotBlank(digits: string, delims: string)
    requires AllDigits(digits) && digits != "" && (delims == BLANK || delims == BLANKS)
    ensures ' ' in delims && digits[0] !in delims && forall c :: c in digits ==> c !in delims
  {
    assert digits[0] in digits && delims[0] == ' ';
  }

  /** The numbers of the list are the first tokens, and there are as many spaces as numbers. */
  lemma {:induction false} PrintedTokens(vals: seq<U64Word>, tail: string, first: string)
    requires ' ' !in tail && (first == BLANK || first == BLANKS)
    ensures Spaces(Printed(vals, tail)) == |vals|
    ensures var tokens := Tokens(Printed(vals, tail), first, BLANKS);
            |vals| <= |tokens| && forall i :: 0 <= i < |vals| ==> tokens[i] == Digits(vals[i])
    decreases |vals|
  {
    hide Tokens, Spaces, Digits;
    if vals == [] {
      NoSpaces(tail);
    } else {
      var rest := Printed(vals[1..], tail);
      PrintedTokens(vals[1..], tail, BLANKS);
      FirstToken(vals[0], rest, first);
      DigitsRoundTrip(vals[0]);
      NoSpaces(Digits(vals[0]));
      SpacesAdd(Digits(vals[0]), " " + rest);
      SpacesAdd(" ", rest);
      OneSpace();
    }
  }

  lemma OneSpace()
    ensures Spaces(" ") == 1
  {
    assert " "[..0] == "";
  }

  function Somes(vals: seq<U64Word>): seq<Option<U64Word>> {
    seq(|vals|, i requires 0 <= i < |vals| => Some(vals[i]))
  }

  lemma PrintedElements(vals: seq<U64Word>)
    ensures var elements := Elements(Printed(vals, "\n"));
            && |elements| == |vals|
            && forall i :: 0 <= i < |vals| ==>
                 && elements[i].Some?
                 && (elements[i].value == vals[i] <==> vals[i] < 0x8000_0000_0000_0000)
  {
    PrintedTokens(vals, "\n", BLANK);
    hide Tokens, Spaces, Printed, Digits, ScanSigned;
    var elements := Elements(Printed(vals, "\n"));
    forall i | 0 <= i < |vals|
      ensures elements[i].Some? && (elements[i].value == vals[i] <==> vals[i] < 0x8000_0000_0000_0000)
    {
      ScanOfDigits(vals[i]);
    }
  }

  /** A printed list is read back exactly, in order and complete, precisely when every number fits a
      signed word: atoll saturates above. */
  lemma ListRoundTrip(vals: seq<U64Word>)
    ensures Elements(Printed(vals, "\n")) == Somes(vals) <==> forall i :: 0 <= i < |vals| ==> vals[i] < 0x8000_0000_0000_0000
  {
    PrintedElements(vals);
    hide Elements, Printed;
    var elements := Elements(Printed(vals, "\n"));
    assert forall i :: 0 <= i < |vals| ==> (elements[i] == Somes(vals)[i] <==> vals[i] < 0x8000_0000_0000_0000);
  }

  /** So the array that is delivered for a printed list is the list exactly under that condition. */
  lemma ArrayRoundTrip(values: seq<U64Word>, vals: seq<U64Word>)
    requires Holds(values, Printed(vals, "\n"))
    ensures values == vals <==> forall i :: 0 <= i < |vals| ==> vals[i] < 0x8000_0000_0000_0000
  {
    hide *;
    HeldAt(values, Printed(vals, "\n"));
    PrintedElements(vals);
    assert values == vals <==> forall i :: 0 <= i < |vals| ==> values[i] == vals[i];
  }

  lemma HeldAt(values: seq<U64Word>, line: string)
    requires Holds(values, line)
    ensures |values| == |Elements(line)|
    ensures forall i :: 0 <= i < |values| && Elements(line)[i].Some? ==> values[i] == Elements(line)[i].value
  {
    hide Elements;
  }

  /** Without the space after the last number that number is lost: the array has an element for each
      space. */
  lemma LastNumberLost(vals: seq<U64Word>, last: U64Word)
    requires forall i :: 0 <= i < |vals| ==> vals[i] < I64
    ensures Elements(Printed(vals, Digits(last) + "\n")) == Somes(vals)
  {
    DigitsRoundTrip(last);
    PrintedTokens(vals, Digits(last) + "\n", BLANK);
    hide Tokens, Spaces, Printed, Digits, ScanSigned;
    forall i | 0 <= i < |vals|
      ensures ScanSigned(Digits(vals[i])) == vals[i]
    {
      ScanOfDigits(vals[i]);
    }
  }
}
