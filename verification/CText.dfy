/** Decimal text and tokens as the C library handles them: the printer, the scanners and the in-place
    tokenizer, as their standard describes them.

    Buffers hold characters; a C string ends before its first NUL.
 */
module CText {
  import opened Arithmetic
  import opened Options

  const U64: int := 0x1_0000_0000_0000_0000
  const I64: int := 0x8000_0000_0000_0000
  const NUL: char := '\0'

  type U64Word = x: int | 0 <= x < U64

  // ----- decimal text --------------------------------------------------------------------------

  predicate IsDigit(c: char) {
    '0' <= c <= '9'
  }

  function DigitOf(n: nat): (c: char)
    requires n < 10
    ensures IsDigit(c) && ValueOf(c) == n
  {
    '0' + n as char
  }

  function ValueOf(c: char): nat
    requires IsDigit(c)
  {
    (c - '0') as nat
  }

  /** What the printer writes for a number. */
  function Digits(n: nat): string {
    if n < 10 then [DigitOf(n)] else Digits(n / 10) + [DigitOf(n % 10)]
  }

  predicate AllDigits(s: string) {
    forall c :: c in s ==> IsDigit(c)
  }

  /** The number a string of digits stands for. */
  function Number(s: string): nat
    requires AllDigits(s)
  {
    if s == "" then 0 else Number(s[..|s| - 1]) * 10 + ValueOf(s[|s| - 1])
  }

  lemma {:induction false} DigitsRoundTrip(n: nat)
    ensures |Digits(n)| > 0 && AllDigits(Digits(n)) && Number(Digits(n)) == n
  {
    if n < 10 {
      assert Digits(n)[..0] == "";
    } else {
      DigitsRoundTrip(n / 10);
      assert Digits(n)[..|Digits(n)| - 1] == Digits(n / 10);
    }
  }

  /** The digits are decimal: one more digit multiplies by ten. */
  lemma {:induction false} NumberAppends(s: string, c: char)
    requires AllDigits(s) && '0' <= c <= '9'
    ensures AllDigits(s + [c]) && Number(s + [c]) == 10 * Number(s) + (c as int - '0' as int)
    ensures Number("") == 0
  {
    assert (s + [c])[..|s|] == s;
  }

  /** A number below ten to the k has at most k digits. */
  lemma {:induction false} DigitsShort(n: nat, k: nat)
    requires k > 0 && n < Power10(k)
    ensures |Digits(n)| <= k
  {
    if n >= 10 {
      assert k > 1;
      DigitsShort(n / 10, k - 1);
    }
  }

  function Power10(k: nat): nat {
    if k == 0 then 1 else 10 * Power10(k - 1)
  }

  lemma WordDigits(n: U64Word)
    ensures |Digits(n)| <= 20
  {
    assert Power10(10) == 10000000000;
    assert Power10(20) == 10000000000 * 10000000000;
    DigitsShort(n, 20);
  }

  // ----- scanning ------------------------------------------------------------------------------

  predicate IsSpace(c: char) {
    c == ' ' || '\t' <= c <= '\r'
  }

  function SkipSpace(s: string): string {
    if s != "" && IsSpace(s[0]) then SkipSpace(s[1..]) else s
  }

  /** The leading digits. */
  function DigitRun(s: string): (r: string)
    ensures AllDigits(r)
  {
    if s != "" && IsDigit(s[0]) then [s[0]] + DigitRun(s[1..]) else ""
  }

  /** Whether the text starts with a minus sign, and the leading digits after the sign. */
  function Scan(s: string): (r: (bool, string))
    ensures AllDigits(r.1)
  {
    var t := SkipSpace(s);
    if t != "" && t[0] == '-' then (true, DigitRun(t[1..]))
    else if t != "" && t[0] == '+' then (false, DigitRun(t[1..]))
    else (false, DigitRun(t))
  }

  /** sscanf with %lu: nothing without a digit; too large a number gives the greatest word, a minus
      sign negates in 64 bits. */
  function ScanUnsigned(s: string): Option<U64Word> {
    var (minus, digits) := Scan(s);
    if digits == "" then None
    else if Number(digits) >= U64 then Some(U64 - 1)
    else if minus && Number(digits) > 0 then Some(U64 - Number(digits))
    else Some(Number(digits))
  }

  /** atoll stored in an unsigned word: saturating at the signed limits, 0 without a digit. */
  function ScanSigned(s: string): U64Word {
    var (minus, digits) := Scan(s);
    var n := Number(digits);
    if minus then (if n == 0 then 0 else if n > I64 then I64 else U64 - n)
    else if n >= I64 then I64 - 1
    else n
  }

  /** Neither part of a number nor skipped before one. */
  predicate Ends(c: char) {
    !IsDigit(c) && !IsSpace(c) && c != '-' && c != '+'
  }

  lemma {:induction false} DigitRunStops(s: string, rest: string)
    requires rest != "" && !IsDigit(rest[0])
    ensures DigitRun(s + rest) == DigitRun(s)
  {
    if s == "" {
      assert s + rest == rest;
    } else {
      assert (s + rest)[1..] == s[1..] + rest;
      DigitRunStops(s[1..], rest);
    }
  }

  lemma {:induction false} SkipSpaceStops(s: string, rest: string)
    requires rest != "" && !IsSpace(rest[0])
    ensures SkipSpace(s + rest) == SkipSpace(s) + rest
  {
    if s == "" {
      assert s + rest == rest;
    } else {
      assert (s + rest)[1..] == s[1..] + rest;
      SkipSpaceStops(s[1..], rest);
    }
  }

  /** What follows such a character has no influence. */
  lemma ScanStops(s: string, rest: string)
    requires rest != "" && Ends(rest[0])
    ensures Scan(s + rest) == Scan(s)
  {
    SkipSpaceStops(s, rest);
    var t := SkipSpace(s);
    if t == "" {
      assert t + rest == rest;
    } else {
      assert (t + rest)[0] == t[0] && (t + rest)[1..] == t[1..] + rest;
      DigitRunStops(t[1..], rest);
    }
    DigitRunStops(t, rest);
  }

  lemma {:induction false} AllRun(s: string)
    requires AllDigits(s)
    ensures DigitRun(s) == s
  {
    if s != "" { AllRun(s[1..]); }
  }

  lemma ScanDigits(n: nat)
    ensures Scan(Digits(n)) == (false, Digits(n))
  {
    DigitsRoundTrip(n);
    AllRun(Digits(n));
    assert Digits(n)[0] in Digits(n);
  }

  lemma {:induction false} SkipsBlanks(blanks: string, t: string)
    requires forall c :: c in blanks ==> c as int == 32 || 9 <= c as int <= 13
    ensures SkipSpace(blanks + t) == SkipSpace(t)
  {
    if blanks == "" {
      assert blanks + t == t;
    } else {
      assert blanks[0] in blanks && (blanks + t)[1..] == blanks[1..] + t;
      assert forall c :: c in blanks[1..] ==> c in blanks;
      SkipsBlanks(blanks[1..], t);
    }
  }

  lemma RunOfDigits(digits: string, rest: string)
    requires AllDigits(digits) && (rest == "" || !('0' <= rest[0] <= '9'))
    ensures DigitRun(digits + rest) == digits
  {
    AllRun(digits);
    if rest == "" { assert digits + rest == digits; } else { DigitRunStops(digits, rest); }
  }

  lemma SignAndDigits(sign: string, n: nat, rest: string)
    requires sign in ["", "+", "-"] && (rest == "" || !('0' <= rest[0] <= '9'))
    ensures SkipSpace(sign + (Digits(n) + rest)) == sign + (Digits(n) + rest)
    ensures Scan(sign + (Digits(n) + rest)) == (sign == "-", Digits(n))
  {
    DigitsRoundTrip(n);
    RunOfDigits(Digits(n), rest);
    assert Digits(n)[0] in Digits(n) && (Digits(n) + rest)[0] == Digits(n)[0];
    hide Digits, DigitRun, Number, SkipSpace, Scan;
    SignThen(sign, Digits(n) + rest);
  }

  lemma SignThen(sign: string, t: string)
    requires sign in ["", "+", "-"] && t != "" && IsDigit(t[0])
    ensures SkipSpace(sign + t) == sign + t && Scan(sign + t) == (sign == "-", DigitRun(t))
  {
    hide DigitRun;
    if sign == "" { assert sign + t == t; } else { assert (sign + t)[1..] == t; }
  }

  /** White space of the C locale, perhaps a sign, and digits up to any other character, as both scanners
      read them: the one for unsigned words saturates at 2^64 - 1 and then negates modulo 2^64, the one
      for signed words saturates at -2^63 and 2^63 - 1. */
  lemma ScansNumber(blanks: string, sign: string, n: nat, rest: string)
    requires forall c :: c in blanks ==> c as int == 32 || 9 <= c as int <= 13
    requires sign in ["", "+", "-"] && (rest == "" || !('0' <= rest[0] <= '9'))
    ensures var text := blanks + (sign + (Digits(n) + rest));
            && ScanUnsigned(text)
               == Some(if n >= 0x1_0000_0000_0000_0000 then 0xFFFF_FFFF_FFFF_FFFF
                       else if sign == "-" && n > 0 then 0x1_0000_0000_0000_0000 - n
                       else n)
            && ScanSigned(text)
               == if sign == "-" then (if n == 0 then 0
                                       else if n >= 0x8000_0000_0000_0000 then 0x8000_0000_0000_0000
                                       else 0x1_0000_0000_0000_0000 - n)
                  else if n >= 0x8000_0000_0000_0000 then 0x7FFF_FFFF_FFFF_FFFF
                  else n
  {
    var t := sign + (Digits(n) + rest);
    SkipsBlanks(blanks, t);
    SignAndDigits(sign, n, rest);
    assert Scan(blanks + t) == Scan(t);
    DigitsRoundTrip(n);
    hide Digits, Number, Scan, SkipSpace;
  }

  /** Where no digit follows the white space and the sign there is no number. */
  lemma ScansNothing(blanks: string, sign: string, rest: string)
    requires forall c :: c in blanks ==> c as int == 32 || 9 <= c as int <= 13
    requires sign in ["", "+", "-"] && (rest == "" || Ends(rest[0]))
    ensures ScanUnsigned(blanks + (sign + rest)) == None && ScanSigned(blanks + (sign + rest)) == 0
  {
    SkipsBlanks(blanks, sign + rest);
    assert sign != "" ==> (sign + rest)[1..] == rest;
    assert sign == "" ==> sign + rest == rest;
    assert Scan(blanks + (sign + rest)).1 == "";
  }

  // ----- tokens --------------------------------------------------------------------------------

  function Skip(s: string, delims: string): string {
    if s != "" && s[0] in delims then Skip(s[1..], delims) else s
  }

  function Take(s: string, delims: string): (t: string)
    ensures |t| <= |s| && t == s[..|t|]
    ensures |t| == |s| || s[|t|] in delims
  {
    if s == "" || s[0] in delims then "" else [s[0]] + Take(s[1..], delims)
  }

  lemma {:induction false} SkipShrinks(s: string, delims: string)
    ensures |Skip(s, delims)| <= |s| && (Skip(s, delims) != "" ==> Skip(s, delims)[0] !in delims)
  {
    if s != "" { SkipShrinks(s[1..], delims); }
  }

  /** What is left after a token: its delimiter is consumed. */
  function After(s: string, token: string): string
    requires |token| <= |s|
  {
    if |token| == |s| then "" else s[|token| + 1..]
  }

  /** All tokens of a string: the first is split off with one set of delimiters, the others with
      another. */
  function Tokens(s: string, first: string, others: string): seq<string>
    decreases |s|
  {
    SkipShrinks(s, first);
    var t := Skip(s, first);
    if t == "" then []
    else
      var token := Take(t, first);
      [token] + Tokens(After(t, token), others, others)
  }

  /** The text without the delimiters. */
  function Without(s: string, delims: string): string {
    if s == "" then "" else (if s[0] in delims then "" else [s[0]]) + Without(s[1..], delims)
  }

  function Joined(tokens: seq<string>): string {
    if tokens == [] then "" else tokens[0] + Joined(tokens[1..])
  }

  /** No token is empty or has a delimiter in it, and together, in order, they are all the other
      characters of the text. */
  lemma {:induction false} TokensComplete(s: string, delims: string)
    ensures forall t :: t in Tokens(s, delims, delims) ==> t != "" && forall c :: c in t ==> c !in delims
    ensures Joined(Tokens(s, delims, delims)) == Without(s, delims)
    decreases |s|
  {
    SkipShrinks(s, delims);
    SkipWithout(s, delims);
    TokensStep(s, delims, delims);
    var t := Skip(s, delims);
    if t != "" {
      var token := Take(t, delims);
      TakeWithout(t, delims);
      TakeClean(t, delims);
      assert token != "";
      hide Skip, Take, Tokens, Without;
      TokensComplete(After(t, token), delims);
    }
  }

  lemma {:induction false} SkipWithout(s: string, delims: string)
    ensures Without(Skip(s, delims), delims) == Without(s, delims)
  {
    if s != "" { SkipWithout(s[1..], delims); }
  }

  lemma {:induction false} TakeClean(t: string, delims: string)
    ensures forall c :: c in Take(t, delims) ==> c !in delims
  {
    if t != "" { TakeClean(t[1..], delims); }
  }

  lemma {:induction false} TakeWithout(t: string, delims: string)
    ensures Without(t, delims) == Take(t, delims) + Without(After(t, Take(t, delims)), delims)
  {
    if t == "" || t[0] in delims {
      NothingTaken(t, delims);
    } else {
      OneTaken(t, delims);
      hide *;
      TakeWithout(t[1..], delims);
      Associative([t[0]], Take(t[1..], delims), Without(After(t[1..], Take(t[1..], delims)), delims));
    }
  }

  lemma Associative(a: string, b: string, c: string)
    ensures (a + b) + c == a + (b + c)
  {
  }

  lemma NothingTaken(t: string, delims: string)
    requires t == "" || t[0] in delims
    ensures Without(t, delims) == Take(t, delims) + Without(After(t, Take(t, delims)), delims)
  {
    assert Take(t, delims) == "";
  }

  lemma OneTaken(t: string, delims: string)
    requires t != "" && t[0] !in delims
    ensures Take(t, delims) == [t[0]] + Take(t[1..], delims) && Without(t, delims) == [t[0]] + Without(t[1..], delims)
    ensures After(t, Take(t, delims)) == After(t[1..], Take(t[1..], delims))
  {
  }

  const BLANK: string := " "
  const BLANKS: string := " \n"

  /** A C string in a buffer, from `start` up to the NUL at `end`. */
  predicate Line(buf: seq<char>, start: nat, end: nat) {
    start <= end < |buf| && buf[end] == NUL && forall i :: start <= i < end ==> buf[i] != NUL
  }

  lemma LineFits(buf: seq<char>, start: nat, end: nat)
    requires Line(buf, start, end)
    ensures start <= end < |buf|
  {
  }

  lemma SkipStep(buf: seq<char>, i: nat, end: nat, delims: string)
    requires i < end <= |buf|
    ensures Skip(buf[i..end], delims) == if buf[i] in delims then Skip(buf[i + 1..end], delims) else buf[i..end]
  {
    assert buf[i..end][1..] == buf[i + 1..end];
  }

  lemma TakeStep(buf: seq<char>, i: nat, end: nat, delims: string)
    requires i < end <= |buf|
    ensures Take(buf[i..end], delims) == if buf[i] in delims then "" else [buf[i]] + Take(buf[i + 1..end], delims)
  {
    assert buf[i..end][1..] == buf[i + 1..end];
  }

  /** The first character that is no delimiter. */
  method SkipDelims(buf: array<char>, start: nat, delims: string, ghost end: nat) returns (i: nat)
    requires Line(buf[..], start, end)
    ensures start <= i <= end && buf[i..end] == Skip(buf[start..end], delims)
  {
    hide Skip;
    i := start;
    while buf[i] != NUL && buf[i] in delims
      invariant start <= i <= end && Skip(buf[start..end], delims) == Skip(buf[i..end], delims)
      decreases end - i
    {
      SkipStep(buf[..], i, end, delims);
      assert buf[..][i..end] == buf[i..end] && buf[..][i + 1..end] == buf[i + 1..end];
      i := i + 1;
    }
    if i == end {
      SkipNothing(delims);
      assert buf[i..end] == "";
    } else {
      SkipStep(buf[..], i, end, delims);
      assert buf[..][i..end] == buf[i..end];
    }
  }

  lemma SkipNothing(delims: string)
    ensures Skip("", delims) == "" && Take("", delims) == ""
  {
  }

  /** The end of the token that starts at `start`. */
  method TokenEnd(buf: array<char>, start: nat, delims: string, ghost end: nat) returns (j: nat)
    requires Line(buf[..], start, end)
    ensures start <= j <= end && buf[start..j] == Take(buf[start..end], delims)
    ensures j < end <==> buf[j] != NUL
  {
    hide Take;
    ghost var text := buf[..];
    assert text[start..end] == buf[start..end];
    j := start;
    TakeStart(text, start, end, delims);
    while buf[j] != NUL && buf[j] !in delims
      invariant start <= j <= end && TakenTo(text, start, j, end, delims)
      decreases end - j
    {
      TakeNext(text, start, j, end, delims);
      j := j + 1;
    }
    TakeEnd(text, start, j, end, delims);
    assert text[start..j] == buf[start..j];
  }

  /** The characters up to `j` belong to the token, and so does what is taken from there. */
  predicate TakenTo(text: seq<char>, start: nat, j: nat, end: nat, delims: string) {
    start <= j <= end <= |text| && Take(text[start..end], delims) == text[start..j] + Take(text[j..end], delims)
  }

  lemma TakeStart(text: seq<char>, start: nat, end: nat, delims: string)
    requires start <= end <= |text|
    ensures TakenTo(text, start, start, end, delims)
  {
    hide Take;
  }

  lemma TakeNext(text: seq<char>, start: nat, j: nat, end: nat, delims: string)
    requires TakenTo(text, start, j, end, delims) && j < end && text[j] !in delims
    ensures TakenTo(text, start, j + 1, end, delims)
  {
    TakeStep(text, j, end, delims);
    hide Take;
    JoinsOn(text, start, j, Take(text[j + 1..end], delims));
  }

  lemma JoinsOn(text: seq<char>, start: nat, j: nat, rest: string)
    requires start <= j < |text|
    ensures text[start..j] + ([text[j]] + rest) == text[start..j + 1] + rest
  {
    assert text[start..j + 1] == text[start..j] + [text[j]];
  }

  lemma TakeEnd(text: seq<char>, start: nat, j: nat, end: nat, delims: string)
    requires TakenTo(text, start, j, end, delims) && (j == end || text[j] in delims)
    ensures Take(text[start..end], delims) == text[start..j]
  {
    if j < end { TakeStep(text, j, end, delims); } else { SkipNothing(delims); }
    hide Take;
  }

  /** What a call of strtok leaves behind for the rest of a string: the token, NUL-terminated, and the
      place from which the next call goes on. */
  predicate Split(buf: seq<char>, tok: nat, stop: nat, save: nat, end: nat, t: string, delims: string) {
    && tok <= stop < |buf| && buf[stop] == NUL && buf[tok..stop] == Take(t, delims)
    && Line(buf, save, end) && buf[save..end] == After(t, Take(t, delims))
  }

  /** strtok: skips delimiters, overwrites the one that ends the token with NUL and remembers the place
      after it. */
  method NextToken(buf: array<char>, save: nat, delims: string, ghost end: nat)
    returns (tok: Option<nat>, save': nat, ghost stop: nat)
    requires Line(buf[..], save, end)
    modifies buf
    ensures tok == None <==> Skip(old(buf[save..end]), delims) == ""
    ensures tok == None ==> Line(buf[..], save', end)
    ensures tok != None ==> Split(buf[..], tok.value, stop, save', end, Skip(old(buf[save..end]), delims), delims)
  {
    hide Skip, Take;
    var i := SkipDelims(buf, save, delims, end);
    if buf[i] == NUL {
      return None, i, i;
    }
    tok := Some(i);
    ghost var t := buf[i..end];
    stop, save' := EndToken(buf, i, delims, end);
  }

  /** Ends the token that starts at `i`. */
  method EndToken(buf: array<char>, i: nat, delims: string, ghost end: nat) returns (ghost stop: nat, save: nat)
    requires Line(buf[..], i, end)
    modifies buf
    ensures Split(buf[..], i, stop, save, end, old(buf[i..end]), delims)
  {
    hide Take;
    var j := TokenEnd(buf, i, delims, end);
    stop, save := j, j;
    if buf[j] != NUL {
      assert buf[j + 1..end] == buf[i..end][j - i + 1..];
      buf[j] := NUL;
      save := j + 1;
    }
  }

  lemma TokensStep(s: string, first: string, others: string)
    ensures var t := Skip(s, first);
            Tokens(s, first, others)
            == if t == "" then [] else [Take(t, first)] + Tokens(After(t, Take(t, first)), others, others)
  {
  }

  /** The tokens still to come: the one at `tok` and those of the rest. */
  predicate Pending(buf: seq<char>, tok: nat, stop: nat, save: nat, end: nat, others: string, tokens: seq<string>) {
    && tok <= stop < |buf| && buf[stop] == NUL && Line(buf, save, end)
    && tokens == [buf[tok..stop]] + Tokens(buf[save..end], others, others)
  }

  lemma PendingScan(buf: seq<char>, tok: nat, stop: nat, save: nat, end: nat, others: string, tokens: seq<string>)
    requires Pending(buf, tok, stop, save, end, others, tokens)
    ensures tok <= |buf| && Line(buf, save, end) && tokens != []
    ensures ScanSigned(buf[tok..]) == ScanSigned(tokens[0])
    ensures Tokens(buf[save..end], others, others) == tokens[1..]
  {
    hide ScanSigned, Tokens;
    TokenScan(buf, tok, stop);
  }

  /** A call of strtok, seen from the list of tokens. */
  method NextPending(buf: array<char>, save: nat, delims: string, ghost others: string, ghost end: nat,
                     ghost tokens: seq<string>)
    returns (tok: Option<nat>, save': nat, ghost stop: nat)
    requires Line(buf[..], save, end) && tokens == Tokens(buf[save..end], delims, others)
    modifies buf
    ensures tok == None <==> tokens == []
    ensures tok != None ==> Pending(buf[..], tok.value, stop, save', end, others, tokens)
  {
    hide Tokens, Skip, Take;
    TokensStep(buf[save..end], delims, others);
    tok, save', stop := NextToken(buf, save, delims, end);
    assert tok != None ==> buf[..][save'..end] == buf[save'..end];
  }

  /** Scanning from a token's start sees only the token. */
  lemma TokenScan(buf: seq<char>, start: nat, stop: nat)
    requires start <= stop < |buf| && buf[stop] == NUL
    ensures ScanSigned(buf[start..]) == ScanSigned(buf[start..stop])
  {
    assert buf[start..] == buf[start..stop] + buf[stop..];
    ScanStops(buf[start..stop], buf[stop..]);
  }

  lemma {:induction false} TakeAll(s: string, rest: string, delims: string)
    requires (forall c :: c in s ==> c !in delims) && rest != "" && rest[0] in delims
    ensures Take(s + rest, delims) == s
  {
    if s == "" {
      assert s + rest == rest;
    } else {
      assert (s + rest)[1..] == s[1..] + rest;
      TakeAll(s[1..], rest, delims);
    }
  }

  lemma SkipNone(s: string, delims: string)
    requires s != "" && s[0] !in delims
    ensures Skip(s, delims) == s
  {
  }

  /** atoll stops at the greatest signed value. */
  lemma ScanOfDigits(v: U64Word)
    ensures ScanSigned(Digits(v)) == if v < I64 then v else I64 - 1
  {
    ScanDigits(v);
    DigitsRoundTrip(v);
    hide Digits, Number, Scan;
  }

  lemma ScanTerminated(n: nat, rest: string)
    requires rest != "" && !IsDigit(rest[0])
    ensures Scan(Digits(n) + rest) == (false, Digits(n))
  {
    DigitsRoundTrip(n);
    assert Digits(n)[0] in Digits(n);
    DigitRunStops(Digits(n), rest);
    AllRun(Digits(n));
  }
}
