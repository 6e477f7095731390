/** The two files behind the utilization report (variorum_get_utilization_json in variorum.c): the first
    line of /proc/stat, read into a buffer of 100 characters, and the lines of /proc/meminfo.
 */
module ProcFiles {
  import opened CText
  import opened Options

  function Plus(a: U64Word, b: U64Word): (r: U64Word)
    ensures r == (a + b) % U64
  {
    if a + b < U64 then a + b else a + b - U64
  }

  // ----- reading the counters ------------------------------------------------------------------

  /** What is kept of a line: the sum of all its numbers, user with nice, system, idle with iowait. */
  datatype Counters = Counters(sum: U64Word, user: U64Word, system: U64Word, idle: U64Word)

  function Sum(fields: seq<U64Word>): int {
    if fields == [] then 0 else fields[0] + Sum(fields[1..])
  }

  function Field(fields: seq<U64Word>, i: nat): U64Word {
    if i < |fields| then fields[i] else 0
  }

  /** The counters of a line whose numbers are `fields`; missing numbers count as 0. */
  function Read(fields: seq<U64Word>): Counters {
    Counters(Sum(fields) % U64, Plus(Field(fields, 0), Field(fields, 1)), Field(fields, 2),
             Plus(Field(fields, 3), Field(fields, 4)))
  }

  lemma {:induction false} SumSplit(fields: seq<U64Word>, n: nat)
    requires n < |fields|
    ensures Sum(fields[..n + 1]) == Sum(fields[..n]) + fields[n]
  {
    if n == 0 {
      assert fields[..1][1..] == [];
    } else {
      SumSplit(fields[1..], n - 1);
      assert fields[..n + 1][1..] == fields[1..][..n] && fields[..n][1..] == fields[1..][..n - 1];
    }
  }

  // ----- the line ------------------------------------------------------------------------------

  const LINE_SIZE: nat := 100

  /** A C string ends before its first NUL. */
  function CString(s: string): string {
    if s == "" || s[0] == NUL then "" else [s[0]] + CString(s[1..])
  }

  lemma {:induction false} CStringStops(s: string)
    ensures var n := |CString(s)|;
            && n <= |s| && CString(s) == s[..n] && (n == |s| || s[n] == NUL)
            && forall i :: 0 <= i < n ==> s[i] != NUL
  {
    if s != "" && s[0] != NUL { CStringStops(s[1..]); }
  }

  /** What fgets leaves of a line in the buffer. */
  function Cut(line: string): string {
    CString(if |line| < LINE_SIZE then line else line[..LINE_SIZE - 1])
  }

  function Values(tokens: seq<string>): seq<U64Word> {
    seq(|tokens|, i requires 0 <= i < |tokens| => ScanSigned(tokens[i]))
  }

  /** The numbers of a text: its tokens without the first, which is the label. */
  function Fields(text: string): seq<U64Word> {
    var tokens := Tokens(text, BLANK, BLANK);
    if tokens == [] then [] else Values(tokens[1..])
  }

  /** The variables of the loop after the numbers seen so far. */
  predicate Tallied(fields: seq<U64Word>, sum: U64Word, user: U64Word, nice: U64Word, sys: U64Word,
                    idle: U64Word, iowait: U64Word)
  {
    && sum == Sum(fields) % U64
    && user == Field(fields, 0) && nice == Field(fields, 1) && sys == Field(fields, 2)
    && idle == Field(fields, 3) && iowait == Field(fields, 4)
  }

  lemma TallyNext(fields: seq<U64Word>, v: U64Word, sum: U64Word, user: U64Word, nice: U64Word, sys: U64Word,
                  idle: U64Word, iowait: U64Word)
    requires Tallied(fields, sum, user, nice, sys, idle, iowait)
    ensures var i := |fields|;
            Tallied(fields + [v], Plus(sum, v), if i == 0 then v else user, if i == 1 then v else nice,
                    if i == 2 then v else sys, if i == 3 then v else idle, if i == 4 then v else iowait)
  {
    SumSplit(fields + [v], |fields|);
    assert (fields + [v])[..|fields|] == fields && (fields + [v])[..|fields| + 1] == fields + [v];
  }

  /** The buffer with what fgets stored, and the NUL behind it. */
  method FillBuffer(line: string) returns (buf: array<char>, ghost end: nat)
    ensures fresh(buf) && Line(buf[..], 0, end) && buf[0..end] == Cut(line)
  {
    var stored := if |line| < LINE_SIZE then line else line[..LINE_SIZE - 1];
    buf := new char[LINE_SIZE](i => if 0 <= i < |stored| then stored[i] else NUL);
    CStringStops(stored);
    end := |CString(stored)|;
    assert buf[0..end] == stored[..end];
  }

  /** One number: the sum and, for the first five, the variable that keeps it. */
  method AddNumber(ghost fields: seq<U64Word>, i: nat, v: U64Word, sum0: U64Word, user0: U64Word, nice0: U64Word,
                   sys0: U64Word, idle0: U64Word, iowait0: U64Word)
    returns (sum: U64Word, user: U64Word, nice: U64Word, sys: U64Word, idle: U64Word, iowait: U64Word)
    requires i == |fields| && Tallied(fields, sum0, user0, nice0, sys0, idle0, iowait0)
    ensures Tallied(fields + [v], sum, user, nice, sys, idle, iowait)
  {
    TallyNext(fields, v, sum0, user0, nice0, sys0, idle0, iowait0);
    hide Tallied;
    sum, user, nice, sys, idle, iowait := Plus(sum0, v), user0, nice0, sys0, idle0, iowait0;
    if i == 3 { idle := v; }
    if i == 0 { user := v; }
    if i == 1 { nice := v; }
    if i == 2 { sys := v; }
    if i == 4 { iowait := v; }
  }

  /** Splits the line in place, adds up its numbers and keeps the first five; `i` counts them. */
  method ReadLine(line: string) returns (c: Counters, i: nat)
    ensures c == Read(Fields(Cut(line))) && i == |Fields(Cut(line))|
  {
    hide *;
    var buf, end := FillBuffer(line);
    ghost var tokens := Tokens(Cut(line), BLANK, BLANK);
    var sum, idle, user, nice, sys, iowait: U64Word := 0, 0, 0, 0, 0, 0;
    i := 0;
    NothingTallied();
    var token, save, stop := NextPending(buf, 0, BLANK, BLANK, end, tokens);
    if token != None {
      NextText(buf, token.value, stop, save, end, tokens, 0);
      token, save, stop := NextPending(buf, save, BLANK, BLANK, end, tokens[1..]);
    }
    ghost var fields: seq<U64Word> := [];
    NoValues(tokens);
    while token != None
      invariant i == |fields| && Tallied(fields, sum, user, nice, sys, idle, iowait)
      invariant tokens == [] ==> token == None && i == 0
      invariant tokens != [] ==> i + 1 <= |tokens| && fields == Values(tokens[1..i + 1])
      invariant tokens != [] ==> (token == None <==> i + 1 == |tokens|)
      invariant token != None ==> Pending(buf[..], token.value, stop, save, end, BLANK, tokens[i + 1..])
      decreases |tokens| - i
    {
      var v := ScanToken(buf, token.value, stop, save, end, tokens, i + 1);
      sum, user, nice, sys, idle, iowait := AddNumber(fields, i, v, sum, user, nice, sys, idle, iowait);
      ValuesNext(tokens, i);
      fields := fields + [v];
      NextText(buf, token.value, stop, save, end, tokens, i + 1);
      i := i + 1;
      token, save, stop := NextPending(buf, save, BLANK, BLANK, end, tokens[i + 1..]);
    }
    AllFields(Cut(line), tokens, fields);
    TalliedIsRead(fields, sum, user, nice, sys, idle, iowait);
    c := Counters(sum, Plus(user, nice), sys, Plus(idle, iowait));
  }

  method ScanToken(buf: array<char>, token: nat, ghost stop: nat, ghost save: nat, ghost end: nat,
                   ghost tokens: seq<string>, ghost i: nat)
    returns (v: U64Word)
    requires i < |tokens| && Pending(buf[..], token, stop, save, end, BLANK, tokens[i..])
    ensures v == ScanSigned(tokens[i])
  {
    hide ScanSigned, Pending;
    ghost var text := buf[..];
    PendingScan(text, token, stop, save, end, BLANK, tokens[i..]);
    assert text[token..] == buf[token..] && tokens[i..][0] == tokens[i];
    v := ScanSigned(buf[token..]);
  }

  lemma NoValues(tokens: seq<string>)
    ensures tokens != [] ==> Values(tokens[1..1]) == []
  {
  }

  lemma AllFields(text: string, tokens: seq<string>, fields: seq<U64Word>)
    requires tokens == Tokens(text, BLANK, BLANK)
    requires if tokens == [] then fields == [] else fields == Values(tokens[1..|tokens|])
    ensures Fields(text) == fields
  {
    hide Values, Tokens;
    if tokens != [] { assert tokens[1..|tokens|] == tokens[1..]; }
  }

  lemma NothingTallied()
    ensures Tallied([], 0, 0, 0, 0, 0, 0)
  {
  }

  lemma TalliedIsRead(fields: seq<U64Word>, sum: U64Word, user: U64Word, nice: U64Word, sys: U64Word,
                      idle: U64Word, iowait: U64Word)
    requires Tallied(fields, sum, user, nice, sys, idle, iowait)
    ensures Read(fields) == Counters(sum, Plus(user, nice), sys, Plus(idle, iowait))
  {
  }

  lemma ValuesNext(tokens: seq<string>, i: nat)
    requires i + 1 < |tokens|
    ensures Values(tokens[1..i + 2]) == Values(tokens[1..i + 1]) + [ScanSigned(tokens[i + 1])]
    ensures tokens[i + 1..][0] == tokens[i + 1]
  {
    hide ScanSigned;
  }

  lemma NextText(buf: array<char>, token: nat, stop: nat, save: nat, end: nat, tokens: seq<string>, i: nat)
    requires i < |tokens| && Pending(buf[..], token, stop, save, end, BLANK, tokens[i..])
    ensures Line(buf[..], save, end) && save <= end < buf.Length
    ensures tokens[i + 1..] == Tokens(buf[save..end], BLANK, BLANK)
  {
    PendingScan(buf[..], token, stop, save, end, BLANK, tokens[i..]);
    assert buf[..][save..end] == buf[save..end] && tokens[i..][1..] == tokens[i + 1..];
  }

  // ----- when the line is read completely ------------------------------------------------------

  /** The numbers of a line as the kernel prints them, each behind a space. */
  function Body(vals: seq<U64Word>): string {
    if vals == [] then "" else " " + (Digits(vals[0]) + Body(vals[1..]))
  }

  function StatLine(vals: seq<U64Word>): string {
    "cpu " + (Body(vals) + "\n")
  }

  /** The numbers of a text without a label. */
  function Numbers(text: string): seq<U64Word> {
    Values(Tokens(text, BLANK, BLANK))
  }

  lemma SkipBlank(text: string)
    ensures Tokens(" " + text, BLANK, BLANK) == Tokens(text, BLANK, BLANK)
  {
    assert (" " + text)[1..] == text;
    TokensStep(" " + text, BLANK, BLANK);
    TokensStep(text, BLANK, BLANK);
    hide Tokens, Take, After;
  }

  /** A word and what follows its space. */
  lemma WordFirst(word: string, rest: string)
    requires word != "" && ' ' !in word && (rest == "" || rest[0] == ' ')
    ensures Tokens(word + rest, BLANK, BLANK) == [word] + Tokens(rest, BLANK, BLANK)
  {
    hide Tokens, Take, Skip;
    assert word[0] in word;
    SkipNone(word + rest, BLANK);
    TokensStep(word + rest, BLANK, BLANK);
    if rest == "" {
      assert word + rest == word;
      TakeWhole(word, BLANK);
      NoTokens();
    } else {
      TakeAll(word, rest, BLANK);
      assert After(word + rest, word) == rest[1..];
      assert rest == " " + rest[1..];
      SkipBlank(rest[1..]);
    }
  }

  lemma NoTokens()
    ensures Tokens("", BLANK, BLANK) == []
  {
  }

  lemma {:induction false} TakeWhole(word: string, delims: string)
    requires forall c :: c in word ==> c !in delims
    ensures Take(word, delims) == word && After(word, word) == ""
  {
    if word != "" { TakeWhole(word[1..], delims); }
  }

  /** A number's digits, or some of them, are a word. */
  lemma DigitsAreWord(n: nat)
    ensures Digits(n) != "" && ' ' !in Digits(n) && '\n' !in Digits(n) && NUL !in Digits(n)
  {
    DigitsRoundTrip(n);
  }

  lemma NumbersFirst(word: string, rest: string)
    requires word != "" && ' ' !in word && (rest == "" || rest[0] == ' ')
    ensures Numbers(" " + (word + rest)) == [ScanSigned(word)] + Numbers(rest)
  {
    SkipBlank(word + rest);
    WordFirst(word, rest);
    hide Tokens, ScanSigned;
  }

  /** A whole body is read back, with or without the newline. */
  lemma {:induction false} BodyRead(vals: seq<U64Word>, end: string)
    requires forall v :: v in vals ==> v < I64
    requires end == "" || (end == "\n" && vals != [])
    ensures Numbers(Body(vals) + end) == vals
  {
    hide Numbers, Digits, Body, ScanSigned;
    BodyJoins(vals, end);
    if vals == [] {
      NoNumbers();
    } else {
      var v, rest := vals[0], vals[1..];
      assert v in vals;
      if rest == [] {
        LastNumber(v, end);
        assert vals == [v];
      } else {
        assert forall w :: w in rest ==> w in vals;
        BodyRead(rest, end);
        BodyStarts(rest);
        DigitsAreWord(v);
        ScanOfDigits(v);
        NumbersFirst(Digits(v), Body(rest) + end);
        assert vals == [v] + rest;
      }
    }
  }

  lemma NoNumbers()
    ensures Numbers("") == []
  {
    NoTokens();
  }

  lemma BodyJoins(vals: seq<U64Word>, end: string)
    ensures Body([]) == "" && (vals == [] && end == "" ==> Body(vals) + end == "")
    ensures vals != [] ==> Body(vals) + end == " " + (Digits(vals[0]) + (Body(vals[1..]) + end))
    ensures |vals| == 1 ==> Body(vals) + end == " " + ((Digits(vals[0]) + end) + "")
  {
    EmptyBody();
    if vals != [] {
      BodyIs(vals);
      if |vals| == 1 { assert vals[1..] == []; }
      hide *;
      Associative(" ", Digits(vals[0]) + Body(vals[1..]), end);
      Associative(Digits(vals[0]), Body(vals[1..]), end);
      AppendNothing(Digits(vals[0]) + end);
      AppendNothing(Digits(vals[0]));
    }
  }

  lemma AppendNothing(s: string)
    ensures s + "" == s
  {
  }

  lemma BodyIs(vals: seq<U64Word>)
    requires vals != []
    ensures Body(vals) == " " + (Digits(vals[0]) + Body(vals[1..]))
  {
  }

  lemma LastNumber(v: U64Word, end: string)
    requires v < I64 && (end == "" || end == "\n")
    ensures Numbers(" " + ((Digits(v) + end) + "")) == [v]
  {
    LastWord(v, end);
    NoTokens();
    hide Digits, ScanSigned;
    NumbersFirst(Digits(v) + end, "");
  }

  lemma BodyStarts(vals: seq<U64Word>)
    requires vals != []
    ensures Body(vals) != "" && Body(vals)[0] == ' '
  {
  }

  /** The newline behind the last number does not matter. */
  lemma LastWord(v: U64Word, end: string)
    requires v < I64 && (end == "" || end == "\n")
    ensures ' ' !in Digits(v) + end && Digits(v) + end != "" && ScanSigned(Digits(v) + end) == v
  {
    DigitsAreWord(v);
    ScanOfDigits(v);
    if end == "" {
      assert Digits(v) + end == Digits(v);
    } else {
      ScanTerminated(v, end);
      ScanDigits(v);
    }
  }

  /** A body cut anywhere is not: a number is missing or has lost digits. */
  lemma {:induction false} CutRead(vals: seq<U64Word>, n: nat)
    requires (forall v :: v in vals ==> v < I64) && n < |Body(vals)|
    ensures Numbers(Body(vals)[..n]) != vals
  {
    hide Body, Numbers, Digits;
    EmptyBody();
    var v, rest := vals[0], vals[1..];
    var k := |Digits(v)|;
    assert v in vals;
    BodyCut(vals, n);
    if n <= 1 {
      CutBeforeNumber(Body(vals)[..n], n);
    } else if n < 1 + k {
      CutInNumber(v, n - 1);
    } else {
      assert forall w :: w in rest ==> w in vals;
      CutRead(rest, n - 1 - k);
      CutLater(v, Body(rest)[..n - 1 - k]);
    }
  }

  lemma EmptyBody()
    ensures Body([]) == ""
  {
  }

  /** What a cut leaves of the first number and of the others. */
  lemma BodyCut(vals: seq<U64Word>, n: nat)
    requires vals != [] && n < |Body(vals)|
    ensures var digits, rest := Digits(vals[0]), vals[1..];
            && (n == 1 ==> Body(vals)[..n] == " ")
            && (1 < n < 1 + |digits| ==> Body(vals)[..n] == " " + digits[..n - 1])
            && (n >= 1 + |digits| ==>
                  var m := n - 1 - |digits|;
                  && m < |Body(rest)|
                  && Body(vals)[..n] == " " + (digits + Body(rest)[..m])
                  && (Body(rest)[..m] == "" || Body(rest)[..m][0] == ' '))
  {
    hide Digits;
    var rest := vals[1..];
    if rest != [] { BodyStarts(rest); }
  }

  lemma CutInNumber(v: U64Word, n: nat)
    requires v < I64 && 0 < n < |Digits(v)|
    ensures |Numbers(" " + Digits(v)[..n])| == 1 && Numbers(" " + Digits(v)[..n])[0] != v
  {
    var word := Digits(v)[..n];
    DigitsAreWord(v);
    LostDigits(v, n);
    assert " " + (word + "") == " " + word;
    assert ' ' !in word;
    NoTokens();
    hide Digits, ScanSigned;
    NumbersFirst(word, "");
  }

  lemma CutLater(v: U64Word, tail: string)
    requires tail == "" || tail[0] == ' '
    ensures var cut := " " + (Digits(v) + tail);
            Numbers(cut) != [] && Numbers(cut)[1..] == Numbers(tail)
  {
    DigitsAreWord(v);
    hide Digits, Numbers;
    NumbersFirst(Digits(v), tail);
  }

  lemma CutBeforeNumber(cut: string, n: nat)
    requires |cut| == n <= 1 && (n == 1 ==> cut == " ")
    ensures Numbers(cut) == []
  {
    NoTokens();
    if n == 1 { SkipBlank(""); assert cut == " " + ""; }
  }

  lemma LostDigits(v: U64Word, n: nat)
    requires v < I64 && 0 < n < |Digits(v)|
    ensures ScanSigned(Digits(v)[..n]) != v
  {
    var part := Digits(v)[..n];
    DigitsRoundTrip(v);
    SeveralDigits(v);
    PrefixSmaller(Digits(v), n);
    assert part[0] == Digits(v)[0] && part[0] in Digits(v);
    ScanPart(part);
  }

  lemma SeveralDigits(v: nat)
    requires |Digits(v)| > 1
    ensures v >= 10
  {
  }

  lemma ScanPart(part: string)
    requires part != "" && AllDigits(part) && Number(part) < I64
    ensures ScanSigned(part) == Number(part)
  {
    assert part[0] in part;
    AllRun(part);
    hide Number, DigitRun;
  }

  /** Losing digits of a number above 9 makes it smaller. */
  lemma {:induction false} PrefixSmaller(s: string, n: nat)
    requires AllDigits(s) && 0 < n < |s| && Number(s) >= 1
    ensures AllDigits(s[..n]) && Number(s[..n]) < Number(s)
  {
    var init := s[..|s| - 1];
    if n < |s| - 1 {
      assert init[..n] == s[..n];
      if Number(init) >= 1 { PrefixSmaller(init, n); } else { ZeroPrefix(init, n); }
    }
  }

  lemma {:induction false} ZeroPrefix(s: string, n: nat)
    requires AllDigits(s) && n <= |s| && Number(s) == 0
    ensures AllDigits(s[..n]) && Number(s[..n]) == 0
  {
    if n < |s| {
      assert s[..|s| - 1][..n] == s[..n];
      ZeroPrefix(s[..|s| - 1], n);
    } else {
      assert s[..n] == s;
    }
  }

  lemma LabelRead(rest: string)
    requires rest == "" || rest[0] == ' '
    ensures Fields("cpu " + rest) == Numbers(rest)
  {
    assert "cpu " + rest == "cpu" + (" " + rest);
    WordFirst("cpu", " " + rest);
    SkipBlank(rest);
    hide Tokens, ScanSigned;
    assert ([("cpu")] + Tokens(rest, BLANK, BLANK))[1..] == Tokens(rest, BLANK, BLANK);
  }

  /** The line is read completely if and only if it has at most 99 characters before its newline. */
  lemma LineReadExactly(vals: seq<U64Word>)
    requires vals != [] && forall v :: v in vals ==> v < I64
    ensures Fields(Cut(StatLine(vals))) == vals <==> |StatLine(vals)| <= 100
  {
    var line, n := StatLine(vals), LINE_SIZE - 1 - 4;
    BodyStarts(vals);
    NoNul(vals);
    hide Body, Fields, Numbers, CString;
    if |line| < LINE_SIZE {
      WholeString(line);
      LabelRead(Body(vals) + "\n");
      BodyRead(vals, "\n");
    } else if |line| == LINE_SIZE {
      assert line[..LINE_SIZE - 1] == "cpu " + Body(vals);
      WholeString(line[..LINE_SIZE - 1]);
      LabelRead(Body(vals));
      assert Body(vals) + "" == Body(vals);
      BodyRead(vals, "");
    } else {
      assert line[..LINE_SIZE - 1] == "cpu " + Body(vals)[..n];
      WholeString(line[..LINE_SIZE - 1]);
      LabelRead(Body(vals)[..n]);
      CutRead(vals, n);
    }
  }

  lemma {:induction false} NoNul(vals: seq<U64Word>)
    ensures NUL !in Body(vals)
  {
    if vals != [] {
      DigitsAreWord(vals[0]);
      NoNul(vals[1..]);
    }
  }

  lemma {:induction false} WholeString(s: string)
    requires NUL !in s
    ensures CString(s) == s
  {
    if s != "" {
      assert s[0] in s;
      WholeString(s[1..]);
    }
  }

  // ----- memory --------------------------------------------------------------------------------

  /** A line of /proc/meminfo as sscanf takes it apart: a name and a number, or fewer than two items. */
  datatype MemLine = Metric(name: string, value: U64Word) | Malformed

  datatype Mem = Mem(total: U64Word, free: U64Word)

  /** A colon at the end of a name is removed only if numbers were found in the other file. */
  function Stripped(name: string, i: nat): string {
    if i != 0 && name != "" && name[|name| - 1] == ':' then name[..|name| - 1] else name
  }

  /** The lines before the first malformed one, at which reading stops. */
  function Usable(lines: seq<MemLine>): seq<MemLine> {
    if lines == [] || lines[0].Malformed? then [] else [lines[0]] + Usable(lines[1..])
  }

  /** The value of the last line with that name, or 0. */
  function Figure(lines: seq<MemLine>, i: nat, name: string): U64Word {
    if lines == [] then 0
    else
      var last := lines[|lines| - 1];
      if last.Metric? && Stripped(last.name, i) == name then last.value else Figure(lines[..|lines| - 1], i, name)
  }

  function MemOf(lines: seq<MemLine>, i: nat): Mem {
    Mem(Figure(Usable(lines), i, "MemTotal"), Figure(Usable(lines), i, "MemFree"))
  }

  lemma {:induction false} UsableIs(lines: seq<MemLine>, n: nat)
    requires n <= |lines| && (forall k :: 0 <= k < n ==> lines[k].Metric?) && (n < |lines| ==> lines[n].Malformed?)
    ensures Usable(lines) == lines[..n]
  {
    if n > 0 {
      UsableIs(lines[1..], n - 1);
      assert lines[..n] == [lines[0]] + lines[1..][..n - 1];
    }
  }

  // ----- the text of the file ------------------------------------------------------------------

  const MEM_SIZE: nat := 256

  /** How much of a text fgets takes into room for `n` characters: a line with its newline, or less. */
  function PieceSize(text: string, n: nat): (k: nat)
    ensures k <= |text| && k <= n && (text != "" && n > 0 ==> k > 0)
  {
    if text == "" || n == 0 then 0 else if text[0] == '\n' then 1 else 1 + PieceSize(text[1..], n - 1)
  }

  /** The leading characters that are no white space. */
  function Word(text: string): (word: string)
    ensures |word| <= |text|
  {
    if text == "" || IsSpace(text[0]) then "" else [text[0]] + Word(text[1..])
  }

  /** sscanf with %s and %lu. */
  function ScanMetric(piece: string): MemLine {
    var text := SkipSpace(piece);
    var name := Word(text);
    if name == "" then Malformed
    else
      match ScanUnsigned(text[|name|..])
      case Some(value) => Metric(name, value)
      case None => Malformed
  }

  function MemLines(text: string): seq<MemLine>
    decreases |text|
  {
    if text == "" then []
    else
      var k := PieceSize(text, MEM_SIZE - 1);
      [ScanMetric(CString(text[..k]))] + MemLines(text[k..])
  }

  /** fgets on the rest of the file. */
  method NextPiece(text: string, pos: nat) returns (end: nat)
    requires pos < |text|
    ensures end == pos + PieceSize(text[pos..], MEM_SIZE - 1) && pos < end <= |text|
  {
    end := pos;
    while end < |text| && end - pos < MEM_SIZE - 1
      invariant pos <= end <= |text| && end - pos <= MEM_SIZE - 1
      invariant PieceSize(text[pos..], MEM_SIZE - 1) == end - pos + PieceSize(text[end..], MEM_SIZE - 1 - (end - pos))
    {
      assert text[end..][1..] == text[end + 1..];
      end := end + 1;
      if text[end - 1] == '\n' { return; }
    }
  }

  predicate AllMetric(lines: seq<MemLine>) {
    forall l :: l in lines ==> l.Metric?
  }

  /** The loop over the lines of the file. */
  method ReadMem(text: string, i: nat) returns (m: Mem)
    ensures m == MemOf(MemLines(text), i)
  {
    hide *;
    var total, free: U64Word := 0, 0;
    var pos := 0;
    ghost var done: seq<MemLine> := [];
    NothingRead(text, i);
    while pos < |text|
      invariant pos <= |text| && MemLines(text) == done + MemLines(text[pos..]) && AllMetric(done)
      invariant total == Figure(done, i, "MemTotal") && free == Figure(done, i, "MemFree")
      decreases |text| - pos
    {
      LinesStep(text, pos);
      var end := NextPiece(text, pos);
      assert text[pos..][..end - pos] == text[pos..end];
      var line := ScanMetric(CString(text[pos..end]));
      if line.Malformed? {
        UsableUpTo(done, MemLines(text[pos..]));
        MemOfUsable(MemLines(text), done, i);
        return Mem(total, free);
      }
      MetricRead(done, line, i, "MemTotal");
      MetricRead(done, line, i, "MemFree");
      assert MemLines(text) == (done + [line]) + MemLines(text[end..]);
      var name := Stripped(line.name, i);
      if name == "MemTotal" { total := line.value; }
      if name == "MemFree" { free := line.value; }
      done := done + [line];
      pos := end;
    }
    assert text[pos..] == "";
    NoLines();
    UsableUpTo(done, []);
    MemOfUsable(MemLines(text), done, i);
    m := Mem(total, free);
  }

  lemma NothingRead(text: string, i: nat)
    ensures MemLines(text) == [] + MemLines(text[0..]) && AllMetric([])
    ensures Figure([], i, "MemTotal") == 0 && Figure([], i, "MemFree") == 0
  {
    assert text[0..] == text;
  }

  lemma MetricRead(done: seq<MemLine>, line: MemLine, i: nat, name: string)
    requires AllMetric(done) && line.Metric?
    ensures AllMetric(done + [line])
    ensures Figure(done + [line], i, name) == if Stripped(line.name, i) == name then line.value else Figure(done, i, name)
  {
    assert (done + [line])[..|done|] == done;
    hide Stripped;
  }

  lemma UsableUpTo(done: seq<MemLine>, rest: seq<MemLine>)
    requires AllMetric(done) && (rest == [] || rest[0].Malformed?)
    ensures Usable(done + rest) == done
  {
    assert forall k :: 0 <= k < |done| ==> done[k] in done;
    UsableIs(done + rest, |done|);
  }

  lemma MemOfUsable(lines: seq<MemLine>, done: seq<MemLine>, i: nat)
    requires Usable(lines) == done
    ensures MemOf(lines, i) == Mem(Figure(done, i, "MemTotal"), Figure(done, i, "MemFree"))
  {
  }

  lemma NoLines()
    ensures MemLines("") == []
  {
  }

  lemma LinesStep(text: string, pos: nat)
    requires pos < |text|
    ensures var end := pos + PieceSize(text[pos..], MEM_SIZE - 1);
            && pos < end <= |text|
            && MemLines(text[pos..])
               == [ScanMetric(CString(text[pos..][..end - pos]))] + MemLines(text[end..])
  {
    hide ScanMetric, CString, PieceSize;
    var end := pos + PieceSize(text[pos..], MEM_SIZE - 1);
    assert text[pos..] != "";
    assert text[pos..][end - pos..] == text[end..];
  }

  /** The file is scanned in pieces of 255 characters, or less up to the end of a line or of the file. */
  lemma MemPieces(text: string, k: nat)
    requires 0 < k <= |text| && k <= 255 && NUL !in text[..k]
    requires forall i :: 0 <= i < k - 1 ==> text[i] != '\n'
    requires k == 255 || k == |text| || text[k - 1] == '\n'
    ensures MemLines(text) == [ScanMetric(text[..k])] + MemLines(text[k..])
  {
    PieceIs(text, MEM_SIZE - 1, k);
    WholeString(text[..k]);
    hide PieceSize, CString, ScanMetric;
    LinesStep(text, 0);
    assert text[0..] == text;
  }

  lemma {:induction false} PieceIs(text: string, n: nat, k: nat)
    requires 0 < k <= |text| && k <= n && forall i :: 0 <= i < k - 1 ==> text[i] != '\n'
    requires k == n || k == |text| || text[k - 1] == '\n'
    ensures PieceSize(text, n) == k
  {
    if k > 1 { PieceIs(text[1..], n - 1, k - 1); }
  }

  /** An entry as the kernel prints it: a name, a colon, spaces, the number and perhaps a unit. */
  datatype Entry = Entry(name: string, spaces: nat, value: U64Word, unit: bool)

  function Blanks(n: nat): string {
    if n == 0 then "" else " " + Blanks(n - 1)
  }

  function Unit(e: Entry): string {
    if e.unit then " kB\n" else "\n"
  }

  function EntryLine(e: Entry): string {
    (e.name + ":") + (Blanks(e.spaces + 1) + (Digits(e.value) + Unit(e)))
  }

  predicate EntryOk(e: Entry) {
    && e.name != "" && (forall c :: c in e.name ==> !IsSpace(c) && c != NUL)
    && |EntryLine(e)| < MEM_SIZE
  }

  function InfoText(entries: seq<Entry>): string {
    if entries == [] then "" else EntryLine(entries[0]) + InfoText(entries[1..])
  }

  /** The file as the kernel prints it is read entry by entry, each name with its colon. */
  lemma {:induction false} InfoRead(entries: seq<Entry>)
    requires forall e :: e in entries ==> EntryOk(e)
    ensures ReadAs(MemLines(InfoText(entries)), entries)
  {
    if entries == [] {
      NoLines();
      assert ReadAs([], []);
    } else {
      var e, rest := entries[0], entries[1..];
      assert e in entries && forall d :: d in rest ==> d in entries;
      InfoRead(rest);
      hide EntryLine, MemLines, EntryOk, ReadAs;
      FirstLine(e, InfoText(rest));
      OneMoreRead(e, rest, MemLines(InfoText(rest)));
      assert [e] + rest == entries;
    }
  }

  /** Each line gives its entry's name, with the colon, and number. */
  predicate ReadAs(lines: seq<MemLine>, entries: seq<Entry>) {
    |lines| == |entries| && forall k :: 0 <= k < |entries| ==> lines[k] == Metric(entries[k].name + ":", entries[k].value)
  }

  lemma OneMoreRead(e: Entry, rest: seq<Entry>, lines: seq<MemLine>)
    requires ReadAs(lines, rest)
    ensures ReadAs([Metric(e.name + ":", e.value)] + lines, [e] + rest)
  {
  }

  lemma FirstLine(e: Entry, rest: string)
    requires EntryOk(e)
    ensures MemLines(EntryLine(e) + rest) == [Metric(e.name + ":", e.value)] + MemLines(rest)
  {
    hide *;
    var text := EntryLine(e) + rest;
    EntryPiece(e, rest);
    EntryScanned(e);
    LinesStep(text, 0);
    assert text[0..] == text;
    assert text[..|EntryLine(e)|] == EntryLine(e) && text[|EntryLine(e)|..] == rest;
  }

  /** A short line is one piece. */
  lemma EntryPiece(e: Entry, rest: string)
    requires EntryOk(e)
    ensures PieceSize(EntryLine(e) + rest, MEM_SIZE - 1) == |EntryLine(e)| && CString(EntryLine(e)) == EntryLine(e)
    ensures EntryLine(e) != ""
  {
    var line := EntryLine(e);
    OneNewline(e);
    WholeString(line);
    hide EntryLine, CString;
    LinePiece(line, rest, MEM_SIZE - 1);
  }

  lemma OneNewline(e: Entry)
    requires EntryOk(e)
    ensures var line := EntryLine(e);
            && line != "" && NUL !in line && line[|line| - 1] == '\n'
            && forall k :: 0 <= k < |line| - 1 ==> line[k] != '\n'
  {
    DigitsAreWord(e.value);
    BlanksOnly(e.spaces + 1);
    var unit := if e.unit then " kB" else "";
    var body := e.name + ":" + Blanks(e.spaces + 1) + Digits(e.value) + unit;
    LineIs(e, unit);
    hide *;
    NoneInside(e.name, Blanks(e.spaces + 1), Digits(e.value), unit);
    assert forall k :: 0 <= k < |body| ==> body[k] in body;
  }

  lemma LineIs(e: Entry, unit: string)
    requires unit == if e.unit then " kB" else ""
    ensures EntryLine(e) == e.name + ":" + Blanks(e.spaces + 1) + Digits(e.value) + unit + "\n"
  {
    hide Blanks, Digits;
    assert Unit(e) == unit + "\n";
  }

  lemma NoneInside(name: string, blanks: string, digits: string, unit: string)
    requires (forall c :: c in name ==> !IsSpace(c) && c != NUL) && (forall c :: c in blanks ==> c == ' ')
    requires '\n' !in digits && NUL !in digits && (unit == " kB" || unit == "")
    ensures var body := name + ":" + blanks + digits + unit; '\n' !in body && NUL !in body
  {
  }

  lemma {:induction false} BlanksOnly(n: nat)
    ensures |Blanks(n)| == n && forall c :: c in Blanks(n) ==> c == ' '
  {
    if n > 0 { BlanksOnly(n - 1); }
  }

  lemma {:induction false} LinePiece(line: string, rest: string, n: nat)
    requires line != "" && |line| <= n && line[|line| - 1] == '\n'
    requires forall k :: 0 <= k < |line| - 1 ==> line[k] != '\n'
    ensures PieceSize(line + rest, n) == |line|
  {
    assert (line + rest)[1..] == line[1..] + rest;
    if |line| > 1 {
      assert line[0] != '\n';
      LinePiece(line[1..], rest, n - 1);
    }
  }

  lemma EntryScanned(e: Entry)
    requires EntryOk(e)
    ensures ScanMetric(EntryLine(e)) == Metric(e.name + ":", e.value)
  {
    var name, tail := e.name + ":", Blanks(e.spaces + 1) + (Digits(e.value) + Unit(e));
    assert e.name[0] in e.name;
    assert EntryLine(e)[0] == e.name[0];
    assert Blanks(e.spaces + 1)[0] == ' ';
    WordWhole(name, tail);
    NumberBehind(e.spaces + 1, e.value, Unit(e));
    assert EntryLine(e)[|name|..] == tail;
    hide Digits, Blanks, ScanUnsigned, Word;
  }

  lemma {:induction false} WordWhole(word: string, rest: string)
    requires (forall c :: c in word ==> !IsSpace(c)) && rest != "" && IsSpace(rest[0])
    ensures Word(word + rest) == word
  {
    if word == "" {
      assert word + rest == rest;
    } else {
      assert word[0] in word;
      assert (word + rest)[1..] == word[1..] + rest;
      WordWhole(word[1..], rest);
    }
  }

  lemma {:induction false} NumberBehind(n: nat, v: U64Word, rest: string)
    requires rest != "" && !IsDigit(rest[0])
    ensures ScanUnsigned(Blanks(n) + (Digits(v) + rest)) == Some(v)
  {
    SkipBlanks(n, Digits(v) + rest);
    assert Scan(Blanks(n) + (Digits(v) + rest)) == Scan(Digits(v) + rest);
    ScanTerminated(v, rest);
    DigitsRoundTrip(v);
    assert Scan(Blanks(n) + (Digits(v) + rest)) == (false, Digits(v));
    hide Digits, Scan, Number, Blanks;
  }

  lemma {:induction false} SkipBlanks(n: nat, text: string)
    ensures SkipSpace(Blanks(n) + text) == SkipSpace(text)
  {
    if n == 0 {
      assert Blanks(0) + text == text;
    } else {
      assert (Blanks(n) + text)[1..] == Blanks(n - 1) + text;
      SkipBlanks(n - 1, text);
    }
  }

  /** The line stands under that name: a colon behind it counts as part of it only when no number was
      found in the other file. */
  predicate StandsUnder(line: MemLine, i: nat, name: string) {
    line.Metric? && (line.name == name || (i != 0 && line.name == name + ":"))
  }

  lemma StrippedExactly(line: MemLine, i: nat, name: string)
    requires line.Metric? && (name == "" || name[|name| - 1] != ':')
    ensures Stripped(line.name, i) == name <==> StandsUnder(line, i, name)
  {
    var n := line.name;
    if n != "" && n[|n| - 1] == ':' { assert n == n[..|n| - 1] + ":"; }
  }

  /** The last line that stands under a name gives its figure. */
  lemma {:induction false} FigureIs(lines: seq<MemLine>, i: nat, name: string, t: nat)
    requires (name == "" || name[|name| - 1] != ':') && t < |lines| && AllMetric(lines) && StandsUnder(lines[t], i, name)
    requires forall k :: t < k < |lines| ==> !StandsUnder(lines[k], i, name)
    ensures Figure(lines, i, name) == lines[t].value
  {
    var last := lines[|lines| - 1];
    assert last in lines;
    StrippedExactly(last, i, name);
    hide Stripped, StandsUnder;
    if t < |lines| - 1 {
      assert forall l :: l in lines[..|lines| - 1] ==> l in lines;
      FigureIs(lines[..|lines| - 1], i, name, t);
    }
  }

  /** The last entry of that name in a file as the kernel prints it. */
  predicate LastNamed(entries: seq<Entry>, t: nat, name: string) {
    && (forall e :: e in entries ==> EntryOk(e))
    && t < |entries| && entries[t].name == name
    && forall k :: t < k < |entries| ==> entries[k].name != name
  }

  /** Whenever the line of the other file had a number, the memory figures are the numbers printed
      behind the last entries of their names. */
  lemma FiguresRead(entries: seq<Entry>, i: nat, t: nat, u: nat)
    requires i > 0 && LastNamed(entries, t, "MemTotal") && LastNamed(entries, u, "MemFree")
    ensures t < |entries| && u < |entries|
    ensures MemOf(MemLines(InfoText(entries)), i) == Mem(entries[t].value, entries[u].value)
  {
    EntryFigure(entries, i, "MemTotal", t);
    EntryFigure(entries, i, "MemFree", u);
    hide Usable, Figure, MemLines, InfoText;
  }

  lemma EntryFigure(entries: seq<Entry>, i: nat, name: string, t: nat)
    requires i > 0 && LastNamed(entries, t, name) && name != "" && name[|name| - 1] != ':'
    ensures Figure(Usable(MemLines(InfoText(entries))), i, name) == entries[t].value
  {
    hide MemLines, InfoText, Usable, Figure, EntryOk;
    var lines := MemLines(InfoText(entries));
    InfoRead(entries);
    UsableIs(lines, |lines|);
    assert lines[..|lines|] == lines;
    assert lines[t].name == name + ":";
    forall k | t < k < |lines|
      ensures !StandsUnder(lines[k], i, name)
    {
      NoOtherName(entries[k].name, name);
    }
    FigureIs(lines, i, name, t);
  }

  lemma NoOtherName(a: string, b: string)
    requires a != b && b != "" && b[|b| - 1] != ':'
    ensures a + ":" != b + ":" && a + ":" != b
  {
    assert (a + ":")[..|a|] == a && (b + ":")[..|b|] == b;
    assert (a + ":")[|a|] == ':';
  }

  /** Without a number in the line of /proc/stat the names keep their colons, so that no figure is found
      in a file whose names all end in one. */
  lemma {:induction false} NoFigures(lines: seq<MemLine>, name: string)
    requires name != "" && name[|name| - 1] != ':'
    requires forall l :: l in lines && l.Metric? ==> l.name != "" && l.name[|l.name| - 1] == ':'
    ensures Figure(lines, 0, name) == 0
  {
    if lines != [] {
      assert lines[|lines| - 1] in lines;
      NoFigures(lines[..|lines| - 1], name);
    }
  }
}
