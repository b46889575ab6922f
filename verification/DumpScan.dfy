// The pieces of fprintf and fscanf that the dumps of ninpaths are made of
// (backends/ninpaths.c). What is left of the input is a string.
module DumpScan {

  datatype Scan<T> = Got(value: T, rest: string) | Failed(rest: string)

  predicate Space(c: char) { c == ' ' || 9 <= c as int <= 13 }

  // In the "C" locale these are the blank, the tabs, the line ends and the form feed.
  lemma SpaceIs(c: char)
    ensures Space(c) <==> c in [' ', '\t', '\n', 11 as char, 12 as char, '\r']
  {
    var s := [' ', '\t', '\n', 11 as char, 12 as char, '\r'];
    assert s[0] == ' ' && s[1] == '\t' && s[2] == '\n' && s[3] == 11 as char && s[4] == 12 as char && s[5] == '\r';
  }

  predicate Digit(c: char) { '0' <= c <= '9' }

  function DigitOf(d: nat): (c: char)
    requires d < 10
    ensures Digit(c)
  {
    '0' + d as char
  }

  function ValueOf(c: char): (d: nat)
    requires Digit(c)
    ensures d < 10
  {
    (c - '0') as int
  }

  function Digits(n: nat): (s: string)
    ensures s != "" && Digit(s[0])
  {
    if n < 10 then [DigitOf(n)] else Digits(n / 10) + [DigitOf(n % 10)]
  }

  // %ld
  function Num(n: int): (s: string)
    ensures s != "" && (if n < 0 then s[0] == '-' else Digit(s[0]))
  {
    if n < 0 then "-" + Digits(-n) else Digits(n)
  }

  // A number is written without leading zeros.
  lemma {:induction false} NoLeadingZero(n: nat)
    ensures Digits(n)[0] == '0' <==> n == 0
  {
    if n >= 10 {
      NoLeadingZero(n / 10);
    }
  }

  function SkipSpace(s: string): (r: string)
    ensures |r| <= |s| && (r != "" ==> !Space(r[0]))
  {
    if s != "" && Space(s[0]) then SkipSpace(s[1..]) else s
  }

  // The digits at the front, after those that make up acc.
  function Number(s: string, acc: nat): (r: (nat, string))
    ensures |r.1| <= |s| && (s != "" && Digit(s[0]) ==> |r.1| < |s|)
  {
    if s != "" && Digit(s[0]) then Number(s[1..], acc * 10 + ValueOf(s[0])) else (acc, s)
  }

  // %ld or %d
  function ScanNum(s: string): (r: Scan<int>)
    ensures |r.rest| <= |s| && (r.Got? ==> |r.rest| < |s|)
  {
    var t := SkipSpace(s);
    var u := if t != "" && (t[0] == '-' || t[0] == '+') then t[1..] else t;
    if u == "" || !Digit(u[0]) then Failed(u) else
      var n: int := Number(u, 0).0;
      Got(if t[0] == '-' then -n else n, Number(u, 0).1)
  }

  // The characters at the front that are no white space, at most so many.
  function Word(s: string, most: nat): (n: nat)
    ensures n <= |s| && n <= most
  {
    if s != "" && !Space(s[0]) && most > 0 then Word(s[1..], most - 1) + 1 else 0
  }

  // %127s, with another number
  function ScanWord(s: string, most: nat): (r: Scan<string>)
    ensures |r.rest| <= |s| && (r.Got? && most > 0 ==> |r.rest| < |s|)
  {
    var t := SkipSpace(s);
    if t == "" then Failed(t) else
      var n := Word(t, most);
      Got(t[..n], t[n..])
  }

  // A character of the format that stands for itself.
  function ScanChar(s: string, c: char): (r: Scan<char>)
    ensures |r.rest| <= |s| && (r.Got? ==> |r.rest| < |s|)
  {
    if s != "" && s[0] == c then Got(c, s[1..]) else Failed(s)
  }

  function ScanText(s: string, text: string): (r: Scan<string>)
    ensures |r.rest| <= |s|
  {
    if text <= s then Got(text, s[|text|..]) else Failed(s)
  }

  lemma {:induction false} DigitsScan(n: nat, rest: string)
    ensures Number(Digits(n) + rest, 0) == Number(rest, n)
  {
    if n < 10 {
      assert ([DigitOf(n)] + rest)[1..] == rest;
    } else {
      var c := [DigitOf(n % 10)];
      assert Digits(n) + rest == Digits(n / 10) + (c + rest);
      DigitsScan(n / 10, c + rest);
      assert (c + rest)[1..] == rest;
    }
  }

  // What %ld has written %ld reads, up to a character that is no digit.
  lemma SignAndDigits(t: string)
    requires t != "" && Digit(t[0])
    ensures ScanNum(t) == Got(Number(t, 0).0, Number(t, 0).1)
    ensures var n: int := Number(t, 0).0; ScanNum("-" + t) == Got(-n, Number(t, 0).1)
  {
    hide Number;
    assert SkipSpace(t) == t;
    assert SkipSpace("-" + t) == "-" + t && ("-" + t)[1..] == t;
  }

  lemma NumScan(n: int, rest: string)
    requires rest == "" || !Digit(rest[0])
    ensures ScanNum(Num(n) + rest) == Got(n, rest)
  {
    var s := Num(n) + rest;
    var m: nat := if n < 0 then -n else n;
    DigitsScan(m, rest);
    var t := Digits(m) + rest;
    assert s == if n < 0 then "-" + t else t;
    hide Digits, Number, ScanNum, SkipSpace;
    SignAndDigits(t);
  }

  ghost predicate Solid(w: string) { forall c :: c in w ==> !Space(c) }

  lemma {:induction false} WordIs(w: string, rest: string, most: nat)
    requires Solid(w) && |w| <= most && (rest == "" || Space(rest[0]))
    ensures Word(w + rest, most) == |w|
  {
    if w != "" {
      assert w[0] in w && (w + rest)[1..] == w[1..] + rest;
      WordIs(w[1..], rest, most - 1);
    }
  }

  lemma WordScan(w: string, rest: string, most: nat)
    requires w != "" && Solid(w) && |w| <= most && (rest == "" || Space(rest[0]))
    ensures ScanWord(w + rest, most) == Got(w, rest)
  {
    assert w[0] in w;
    WordIs(w, rest, most);
    assert (w + rest)[..|w|] == w && (w + rest)[|w|..] == rest;
  }

  lemma TextScan(text: string, rest: string)
    ensures ScanText(text + rest, text) == Got(text, rest)
  {
    assert (text + rest)[|text|..] == rest;
  }

  lemma {:induction false} SpacesSkipped(spaces: string, s: string)
    requires forall c :: c in spaces ==> Space(c)
    ensures SkipSpace(spaces + s) == SkipSpace(s)
  {
    if spaces == "" {
      assert spaces + s == s;
    } else {
      assert spaces[0] in spaces && (spaces + s)[1..] == spaces[1..] + s;
      SpacesSkipped(spaces[1..], s);
    }
  }

  // Both conversions skip white space first.
  lemma {:induction false} SkipTwice(s: string)
    ensures SkipSpace(SkipSpace(s)) == SkipSpace(s)
    ensures ScanNum(SkipSpace(s)) == ScanNum(s)
    ensures forall most :: ScanWord(SkipSpace(s), most) == ScanWord(s, most)
  {
    if s != "" && Space(s[0]) {
      SkipTwice(s[1..]);
    }
  }
}
