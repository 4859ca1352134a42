/** Lines, separators, white space and decimal numbers, as the journal and the idempotency log read and write them. */
module Text {
  datatype Option<+T> = None | Some(value: T)

  const U64_LIMIT := 0x1_0000_0000_0000_0000

  /** The first place of `c`, or the length of the text when there is none. */
  function IndexOf(s: string, c: char): (i: nat)
    ensures i <= |s|
    ensures c !in s[..i]
    ensures i < |s| ==> s[i] == c
  {
    if s == "" || s[0] == c then 0
    else
      var i := 1 + IndexOf(s[1..], c);
      assert s[..i] == [s[0]] + s[1..][..i - 1];
      i
  }

  lemma {:induction false} IndexOfIs(s: string, c: char, i: nat)
    requires i <= |s| && c !in s[..i] && (i < |s| ==> s[i] == c)
    ensures IndexOf(s, c) == i
  {
    if i > 0 {
      assert s[0] == s[..i][0];
      assert s[1..][..i - 1] == s[..i][1..];
      IndexOfIs(s[1..], c, i - 1);
    }
  }

  lemma IndexOfSeparator(a: string, c: char, rest: string)
    requires c !in a
    ensures IndexOf(a + [c] + rest, c) == |a|
    ensures (a + [c] + rest)[..|a|] == a && (a + [c] + rest)[|a| + 1..] == rest
  {
    assert (a + [c] + rest)[..|a|] == a;
    IndexOfIs(a + [c] + rest, c, |a|);
  }

  /** At most `n` fields; the last one keeps any separators that remain. */
  function SplitN(s: string, separator: char, n: nat): (fields: seq<string>)
    requires 1 <= n
    ensures 1 <= |fields| <= n
  {
    var i := IndexOf(s, separator);
    if n == 1 || i == |s| then [s] else [s[..i]] + SplitN(s[i + 1..], separator, n - 1)
  }

  lemma SplitNField(a: string, separator: char, rest: string, n: nat)
    requires separator !in a && 2 <= n
    ensures SplitN(a + [separator] + rest, separator, n) == [a] + SplitN(rest, separator, n - 1)
  {
    IndexOfSeparator(a, separator, rest);
  }

  /** Fields are made of the characters of the text. */
  lemma {:induction false} SplitNCharacters(s: string, separator: char, n: nat, c: char)
    requires 1 <= n && c !in s
    ensures forall i :: 0 <= i < |SplitN(s, separator, n)| ==> c !in SplitN(s, separator, n)[i]
  {
    var i := IndexOf(s, separator);
    if n > 1 && i < |s| {
      SplitNCharacters(s[i + 1..], separator, n - 1, c);
    }
  }

  lemma SplitNCuts(s: string, separator: char, n: nat)
    requires 1 <= n
    ensures separator in s && 2 <= n ==> 2 <= |SplitN(s, separator, n)| && separator !in SplitN(s, separator, n)[0]
    ensures separator !in s || n == 1 ==> SplitN(s, separator, n) == [s]
  {
    assert s[..|s|] == s;
  }

  /** Fields with the separator between them. */
  function Joined(fields: seq<string>, separator: char): string
    requires fields != []
  {
    if |fields| == 1 then fields[0] else fields[0] + [separator] + Joined(fields[1..], separator)
  }

  /** Splitting loses nothing, only the last field can hold separators, and it does only if the others are used up. */
  lemma {:induction false} SplitNJoins(s: string, separator: char, n: nat)
    requires 1 <= n
    ensures var fields := SplitN(s, separator, n);
            && Joined(fields, separator) == s
            && (forall i :: 0 <= i < |fields| - 1 ==> separator !in fields[i])
            && (|fields| < n ==> separator !in fields[|fields| - 1])
  {
    hide SplitN, Joined, IndexOf;
    var i := IndexOf(s, separator);
    CutAtIndex(s, separator);
    SplitNUnfolds(s, separator, n);
    if n > 1 && i < |s| {
      var rest := SplitN(s[i + 1..], separator, n - 1);
      SplitNJoins(s[i + 1..], separator, n - 1);
      JoinedCons(s[..i], rest, separator);
      assert forall k :: 0 < k < |[s[..i]] + rest| ==> ([s[..i]] + rest)[k] == rest[k - 1];
    } else {
      JoinedOne(s, separator);
    }
  }

  lemma CutAtIndex(s: string, c: char)
    ensures var i := IndexOf(s, c);
            if i == |s| then c !in s else c !in s[..i] && s == s[..i] + [c] + s[i + 1..]
  {
    hide IndexOf;
    assert s[..|s|] == s;
  }

  lemma SplitNUnfolds(s: string, separator: char, n: nat)
    requires 1 <= n
    ensures var i := IndexOf(s, separator);
            SplitN(s, separator, n) ==
            if n == 1 || i == |s| then [s] else [s[..i]] + SplitN(s[i + 1..], separator, n - 1)
  {
  }

  lemma JoinedOne(field: string, separator: char)
    ensures Joined([field], separator) == field
  {
  }

  lemma JoinedCons(field: string, fields: seq<string>, separator: char)
    requires fields != []
    ensures Joined([field] + fields, separator) == field + [separator] + Joined(fields, separator)
  {
    assert ([field] + fields)[1..] == fields;
  }

  lemma JoinedThree(a: string, b: string, c: string, separator: char)
    ensures Joined([a, b, c], separator) == a + [separator] + (b + [separator] + c)
  {
    assert [a, b, c][1..] == [b, c] && [b, c][1..] == [c];
    assert Joined([b, c], separator) == b + [separator] + c;
  }

  lemma JoinedFour(a: string, b: string, c: string, d: string, separator: char)
    ensures Joined([a, b, c, d], separator) == a + [separator] + (b + [separator] + (c + [separator] + d))
  {
    assert [a, b, c, d][1..] == [b, c, d];
    JoinedThree(b, c, d, separator);
  }

  // ---------- lines ----------

  function StripCarriageReturn(line: string): string {
    if line != "" && line[|line| - 1] == '\r' then line[..|line| - 1] else line
  }

  /**
   Every line ends at a newline, which takes one carriage return before it along; a last line may lack its newline.
   */
  function Lines(text: string): seq<string> {
    if text == "" then []
    else
      var i := IndexOf(text, '\n');
      if i == |text| then [text] else [StripCarriageReturn(text[..i])] + Lines(text[i + 1..])
  }

  lemma FirstLine(line: string, rest: string)
    requires '\n' !in line
    ensures Lines(line + "\n" + rest) == [StripCarriageReturn(line)] + Lines(rest)
  {
    IndexOfSeparator(line, '\n', rest);
  }

  lemma {:induction false} LinesHaveNoNewline(text: string)
    ensures forall i :: 0 <= i < |Lines(text)| ==> '\n' !in Lines(text)[i]
  {
    if text != "" {
      var i := IndexOf(text, '\n');
      if i < |text| {
        LinesHaveNoNewline(text[i + 1..]);
      } else {
        assert text[..i] == text;
      }
    }
  }

  // ---------- white space ----------

  predicate IsWhite(c: char) {
    || '\t' <= c <= '\r' || c == ' ' || c == '\U{85}' || c == '\U{A0}' || c == '\U{1680}'
    || '\U{2000}' <= c <= '\U{200A}' || c == '\U{2028}' || c == '\U{2029}' || c == '\U{202F}'
    || c == '\U{205F}' || c == '\U{3000}'
  }

  function TrimStart(s: string): string {
    if s != "" && IsWhite(s[0]) then TrimStart(s[1..]) else s
  }

  function TrimEnd(s: string): string {
    if s != "" && IsWhite(s[|s| - 1]) then TrimEnd(s[..|s| - 1]) else s
  }

  function Trim(s: string): string {
    TrimEnd(TrimStart(s))
  }

  lemma {:induction false} TrimEndShortens(s: string)
    ensures TrimEnd(s) <= s
    ensures TrimEnd(s) == "" || !IsWhite(TrimEnd(s)[|TrimEnd(s)| - 1])
  {
    if s != "" && IsWhite(s[|s| - 1]) {
      TrimEndShortens(s[..|s| - 1]);
    }
  }

  lemma {:induction false} TrimStartShortens(s: string)
    ensures |TrimStart(s)| <= |s| && TrimStart(s) == s[|s| - |TrimStart(s)|..]
    ensures TrimStart(s) == "" || !IsWhite(TrimStart(s)[0])
  {
    if s != "" && IsWhite(s[0]) {
      TrimStartShortens(s[1..]);
    }
  }

  /** Trimming leaves a text alone exactly when both its ends are ink. */
  lemma TrimLeavesAlone(s: string)
    ensures Trim(s) == s <==> s == "" || (!IsWhite(s[0]) && !IsWhite(s[|s| - 1]))
  {
    TrimStartShortens(s);
    TrimEndShortens(TrimStart(s));
  }

  // ---------- decimal numbers ----------

  predicate IsDigit(c: char) {
    '0' <= c <= '9'
  }

  function Digit(d: nat): char
    requires d < 10
  {
    '0' + d as char
  }

  function Decimal(n: nat): string {
    if n < 10 then [Digit(n)] else Decimal(n / 10) + [Digit(n % 10)]
  }

  predicate AllDigits(s: string) {
    forall i :: 0 <= i < |s| ==> IsDigit(s[i])
  }

  function DigitsValue(s: string): nat
    requires AllDigits(s)
  {
    if s == "" then 0 else 10 * DigitsValue(s[..|s| - 1]) + (s[|s| - 1] - '0') as nat
  }

  /** An optional plus sign, then at least one digit, with a value that fits 64 bits. */
  function ParseU64(s: string): Option<nat> {
    var body := if |s| > 1 && s[0] == '+' then s[1..] else s;
    if body != "" && AllDigits(body) && DigitsValue(body) < U64_LIMIT then Some(DigitsValue(body)) else None
  }

  lemma {:induction false} DecimalReadsBack(n: nat)
    ensures Decimal(n) != "" && AllDigits(Decimal(n)) && DigitsValue(Decimal(n)) == n
    ensures n < U64_LIMIT ==> ParseU64(Decimal(n)) == Some(n)
  {
    if n >= 10 {
      DecimalReadsBack(n / 10);
      assert Decimal(n)[..|Decimal(n)| - 1] == Decimal(n / 10);
    }
    assert Decimal(n)[|Decimal(n)| - 1] == Digit(n % 10);
    assert IsDigit(Decimal(n)[0]);
  }

  /** Only zeros. */
  predicate AllZeros(s: string) {
    forall i :: 0 <= i < |s| ==> s[i] == '0'
  }

  lemma {:induction false} ValueOfZeros(zeros: string, s: string)
    requires AllZeros(zeros) && AllDigits(s)
    ensures AllDigits(zeros + s) && DigitsValue(zeros + s) == DigitsValue(s)
  {
    if s == "" {
      assert zeros + s == zeros;
      if zeros != "" {
        ValueOfZeros(zeros[..|zeros| - 1], "");
        assert zeros[..|zeros| - 1] + "" == zeros[..|zeros| - 1];
      }
    } else {
      ValueOfZeros(zeros, s[..|s| - 1]);
      assert (zeros + s)[..|zeros + s| - 1] == zeros + s[..|s| - 1];
    }
  }

  /** Digits are leading zeros and the decimal numeral of their value. */
  lemma {:induction false} DigitsAreNumeral(s: string) returns (zeros: string)
    requires s != "" && AllDigits(s)
    ensures AllZeros(zeros) && s == zeros + Decimal(DigitsValue(s))
  {
    var front, last := s[..|s| - 1], s[|s| - 1];
    var d := (last - '0') as nat;
    assert Digit(d) == last;
    if |s| == 1 {
      zeros := "";
    } else {
      zeros := DigitsAreNumeral(front);
      if DigitsValue(front) == 0 {
        zeros := front;
        assert front == zeros + "";
        ZeroIsZeros(front);
      }
      assert s == front + [last];
    }
  }

  lemma {:induction false} ZeroIsZeros(s: string)
    requires AllDigits(s) && DigitsValue(s) == 0
    ensures AllZeros(s)
  {
    if s != "" {
      ZeroIsZeros(s[..|s| - 1]);
    }
  }

  /** A text parses to a number exactly if it is its numeral after a plus sign or none and zeros, and fits 64 bits. */
  lemma ParsesNumerals(s: string, n: nat)
    ensures ParseU64(s) == Some(n) <==>
            && n < 0x1_0000_0000_0000_0000
            && exists zeros :: AllZeros(zeros) && (s == zeros + Decimal(n) || s == "+" + zeros + Decimal(n))
  {
    hide Decimal, DigitsValue;
    DecimalReadsBack(n);
    if ParseU64(s) == Some(n) {
      var body := if |s| > 1 && s[0] == '+' then s[1..] else s;
      var zeros := DigitsAreNumeral(body);
      assert s == body || s == "+" + body;
      assert "+" + (zeros + Decimal(n)) == "+" + zeros + Decimal(n);
    }
    if zeros :| AllZeros(zeros) && (s == zeros + Decimal(n) || s == "+" + zeros + Decimal(n)) {
      var body := zeros + Decimal(n);
      ValueOfZeros(zeros, Decimal(n));
      assert "+" + zeros + Decimal(n) == "+" + body;
      assert IsDigit(body[0]);
      if s != body {
        assert s[0] == '+' && s[1..] == body;
      }
    }
  }

  // ---------- what trimming and cutting into lines leave ----------

  /** The 25 white characters of Unicode. */
  lemma WhiteCharacters(c: char)
    ensures IsWhite(c) <==>
            c in ['\t', '\n', '\U{0B}', '\U{0C}', '\r', ' ', '\U{85}', '\U{A0}', '\U{1680}',
                  '\U{2000}', '\U{2001}', '\U{2002}', '\U{2003}', '\U{2004}', '\U{2005}', '\U{2006}',
                  '\U{2007}', '\U{2008}', '\U{2009}', '\U{200A}', '\U{2028}', '\U{2029}', '\U{202F}',
                  '\U{205F}', '\U{3000}']
  {
  }

  predicate AllWhite(s: string) {
    forall i :: 0 <= i < |s| ==> IsWhite(s[i])
  }

  lemma {:induction false} TrimStartCuts(s: string) returns (cut: string)
    ensures AllWhite(cut) && s == cut + TrimStart(s)
  {
    if s != "" && IsWhite(s[0]) {
      cut := TrimStartCuts(s[1..]);
      cut := [s[0]] + cut;
    } else {
      cut := "";
    }
  }

  lemma {:induction false} TrimEndCuts(s: string) returns (cut: string)
    ensures AllWhite(cut) && s == TrimEnd(s) + cut
  {
    if s != "" && IsWhite(s[|s| - 1]) {
      cut := TrimEndCuts(s[..|s| - 1]);
      cut := cut + [s[|s| - 1]];
    } else {
      cut := "";
    }
  }

  /** Trimming takes off white characters at both ends, and all of them. */
  lemma TrimCuts(s: string) returns (before: string, after: string)
    ensures AllWhite(before) && AllWhite(after) && s == before + Trim(s) + after
    ensures Trim(s) != "" ==> !IsWhite(Trim(s)[0]) && !IsWhite(Trim(s)[|Trim(s)| - 1])
  {
    hide TrimStart, TrimEnd, IsWhite;
    before := TrimStartCuts(s);
    after := TrimEndCuts(TrimStart(s));
    TrimStartShortens(s);
    TrimEndShortens(TrimStart(s));
  }

  /** How a text is cut: a line ends at a newline, with a carriage return before it or not; the last may end without. */
  lemma LinesAre(line: string, rest: string)
    requires '\n' !in line
    ensures Lines("") == [] && (line != "" ==> Lines(line) == [line])
    ensures Lines(line + "\r\n" + rest) == [line] + Lines(rest)
    ensures line == "" || line[|line| - 1] != '\r' ==> Lines(line + "\n" + rest) == [line] + Lines(rest)
  {
    hide Lines, IndexOf;
    LastLine(line);
    FirstLine(line, rest);
    FirstLine(line + "\r", rest);
    assert line + "\r" + "\n" + rest == line + "\r\n" + rest;
  }

  lemma LastLine(line: string)
    requires '\n' !in line
    ensures Lines("") == [] && (line != "" ==> Lines(line) == [line])
  {
    IndexOfIs(line, '\n', |line|);
  }
}
