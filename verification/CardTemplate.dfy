/** Card validation, the plaintext template a card is stored under, and the reader of that template. */
module CardTemplate {
  import opened Prelude
  import opened Strings
  import opened Luhn

  datatype CardData = CardData(pan: string, cvv: string, expiry: string, cardholder: string)

  // ---------------------------------------------------------------- validation

  /** Spaces and dashes taken out. */
  function Stripped(s: string): string {
    if s == "" then "" else
    var c := s[|s| - 1];
    Stripped(s[..|s| - 1]) + (if c == ' ' || c == '-' then "" else [c])
  }

  predicate ValidPan(pan: string) {
    var p := Stripped(pan);
    13 <= |p| <= 19 && AllDigits(p) && Passes(p)
  }

  predicate ValidCvv(cvv: string) {
    var c := Trim(cvv);
    3 <= |c| <= 4 && AllDigits(c)
  }

  /** MM/YY up to MM/YYYY, with a month from 01 to 12. */
  predicate ValidExpiry(expiry: string) {
    var e := Trim(expiry);
    && 5 <= |e| <= 7 && e[2] == '/' && AllDigits(e[..2]) && AllDigits(e[3..])
    && 1 <= 10 * Value(e[0]) + Value(e[1]) <= 12
  }

  predicate NameChar(c: char) {
    'a' <= c <= 'z' || 'A' <= c <= 'Z' || c in {' ', '\t', '\n', '\U{000C}', '\r', '-', '\''}
  }

  predicate ValidCardholder(name: string) {
    var n := Trim(name);
    1 <= |n| <= 255 && forall i :: 0 <= i < |n| ==> NameChar(n[i])
  }

  predicate ValidCard(c: CardData) {
    ValidPan(c.pan) && ValidCvv(c.cvv) && ValidExpiry(c.expiry) && ValidCardholder(c.cardholder)
  }

  lemma {:induction false} StrippedQuoteFree(s: string)
    requires QuoteFree(Stripped(s))
    ensures QuoteFree(s) && |Stripped(s)| <= |s|
    decreases |s|
  {
    if s != "" {
      var n := |s| - 1;
      var t := Stripped(s);
      assert forall i :: 0 <= i < |Stripped(s[..n])| ==> Stripped(s[..n])[i] == t[i];
      if !(s[n] == ' ' || s[n] == '-') { assert t[|t| - 1] == s[n]; }
      StrippedQuoteFree(s[..n]);
    }
  }

  /** No field that passes validation contains a double quote, whatever was trimmed or stripped to check it. */
  lemma ValidFieldsQuoteFree(c: CardData)
    requires ValidCard(c)
    ensures QuoteFree(c.pan) && QuoteFree(c.cvv) && QuoteFree(c.expiry) && QuoteFree(c.cardholder)
    ensures |c.pan| >= 13
  {
    hide Passes;
    StrippedQuoteFree(c.pan);
    TrimmedQuoteFree(c.cvv);
    var e := Trim(c.expiry);
    assert QuoteFree(e) by {
      forall i | 0 <= i < |e| ensures e[i] != '\"' {
        if i < 2 { assert e[..2][i] == e[i]; } else if i > 2 { assert e[3..][i - 3] == e[i]; }
      }
    }
    TrimmedQuoteFree(c.expiry);
    TrimmedQuoteFree(c.cardholder);
  }

  // ---------------------------------------------------------------- what is accepted

  lemma {:induction false} StrippedSpread(a: string, b: string)
    ensures Stripped(a + b) == Stripped(a) + Stripped(b)
    decreases |b|
  {
    if b == "" {
      assert a + b == a;
    } else {
      var n := |b| - 1;
      StrippedSpread(a, b[..n]);
      assert (a + b)[..|a + b| - 1] == a + b[..n] && (a + b)[|a + b| - 1] == b[n];
    }
  }

  lemma {:induction false} StrippedDigits(s: string)
    requires AllDigits(s)
    ensures Stripped(s) == s
    decreases |s|
  {
    if s != "" { StrippedDigits(s[..|s| - 1]); }
  }

  /** A string of digits is a card number exactly with 13 to 19 of them and a valid check digit. */
  lemma PanOfDigits(s: string)
    requires AllDigits(s)
    ensures ValidPan(s) <==> 13 <= |s| <= 19 && Passes(s)
  {
    StrippedDigits(s);
  }

  /** Spaces and dashes do not matter. */
  lemma PanSpacing(a: string, c: char, b: string)
    requires c == ' ' || c == '-'
    ensures ValidPan(a + [c] + b) <==> ValidPan(a + b)
  {
    StrippedSpread(a + [c], b);
    StrippedSpread(a, [c]);
    StrippedSpread(a, b);
    assert [c][..0] == "" && Stripped([c]) == "";
    assert Stripped(a) + "" == Stripped(a);
  }

  /** A valid card number with one digit changed is refused. */
  lemma ChangedDigitRefused(pan: string, i: nat, c: char)
    requires ValidPan(pan) && i < |pan| && IsDigit(pan[i]) && IsDigit(c) && c != pan[i]
    ensures !ValidPan(pan[i := c])
  {
    hide Passes, Stripped, Sum;
    var a, b := pan[..i], pan[i + 1..];
    StrippedSpread(a + [pan[i]], b);
    StrippedSpread(a, [pan[i]]);
    StrippedSpread(a + [c], b);
    StrippedSpread(a, [c]);
    StrippedDigits([pan[i]]);
    StrippedDigits([c]);
    assert pan == a + [pan[i]] + b && pan[i := c] == a + [c] + b;
    var p, j := Stripped(pan), |Stripped(a)|;
    assert p[j] == pan[i] && Stripped(pan[i := c]) == p[j := c];
    DetectsSingleChange(p, j, c);
  }

  lemma NoSpaceDigits(s: string)
    requires AllDigits(s)
    ensures Trim(s) == s
  {
    TrimIs("", s, "");
    assert "" + s + "" == s;
  }

  /** A string of digits is a verification value exactly with three or four of them. */
  lemma CvvOfDigits(s: string)
    requires AllDigits(s)
    ensures ValidCvv(s) <==> |s| == 3 || |s| == 4
  {
    NoSpaceDigits(s);
  }

  /** Two digits, a slash and digits are an expiry exactly for a month from 01 to 12 and two to four year digits. */
  lemma ExpiryOfDigits(m: char, n: char, year: string)
    requires IsDigit(m) && IsDigit(n) && AllDigits(year)
    ensures ValidExpiry([m, n, '/'] + year) <==>
      2 <= |year| <= 4 && (if m == '0' then n != '0' else m == '1' && n in {'0', '1', '2'})
  {
    var e := [m, n, '/'] + year;
    TrimIs("", e, "");
    assert "" + e + "" == e;
    assert e[..2] == [m, n] && e[3..] == year;
  }

  /** Letters are a holder's name up to 255 of them; a digit anywhere inside is not. */
  lemma CardholderOfLetters(name: string)
    ensures (forall i :: 0 <= i < |name| ==> 'a' <= name[i] <= 'z' || 'A' <= name[i] <= 'Z') ==>
      (ValidCardholder(name) <==> 1 <= |name| <= 255)
    ensures (exists i :: 0 <= i < |name| && IsDigit(name[i])) ==> !ValidCardholder(name)
  {
    if forall i :: 0 <= i < |name| ==> 'a' <= name[i] <= 'z' || 'A' <= name[i] <= 'Z' {
      TrimIs("", name, "");
      assert "" + name + "" == name;
    }
    if i :| 0 <= i < |name| && IsDigit(name[i]) {
      var front, back := TrimTakesSpace(name);
      var t := Trim(name);
      assert |front| <= i < |front| + |t|;
      assert t[i - |front|] == name[i];
    }
  }

  /** A character inside a name, by code point: letters, five ASCII spaces, dash and apostrophe. */
  lemma NameCharsAre(c: char)
    ensures ValidCardholder("a" + [c] + "z") <==>
      var n := c as int;
      65 <= n <= 90 || 97 <= n <= 122 || n in {9, 10, 12, 13, 32, 39, 45}
  {
    var name := "a" + [c] + "z";
    TrimIs("", name, "");
    assert "" + name + "" == name && name[1] == c;
  }

  /** White space around the other three fields does not matter. */
  lemma PaddingIgnored(front: string, s: string, back: string)
    requires OnlySpace(front) && OnlySpace(back)
    ensures ValidCvv(front + s + back) <==> ValidCvv(s)
    ensures ValidExpiry(front + s + back) <==> ValidExpiry(s)
    ensures ValidCardholder(front + s + back) <==> ValidCardholder(s)
  {
    hide Trim;
    TrimPadded(front, s, back);
  }

  // ---------------------------------------------------------------- the template

  const PAN_OPEN := "{\"pan\":\""
  const CVV_OPEN := "\",\"cvv\":\""
  const EXPIRY_OPEN := "\",\"expiry\":\""
  const CARDHOLDER_OPEN := "\",\"cardholder\":\""
  const CLOSE := "\"}"

  function Template(c: CardData): string {
    PAN_OPEN + c.pan + CVV_OPEN + c.cvv + EXPIRY_OPEN + c.expiry + CARDHOLDER_OPEN + c.cardholder + CLOSE
  }

  /** The stored text, letter by letter. */
  lemma TemplateText(c: CardData)
    ensures Template(c) ==
      "{\"pan\":\"" + c.pan + "\",\"cvv\":\"" + c.cvv + "\",\"expiry\":\"" + c.expiry +
      "\",\"cardholder\":\"" + c.cardholder + "\"}"
  {}

  /** Everything before the first double quote, and the rest from that quote on. */
  function UpToQuote(s: string): (r: (string, string))
    ensures s == r.0 + r.1 && QuoteFree(r.0) && (r.1 != "" ==> r.1[0] == '\"')
  {
    if s == "" || s[0] == '\"' then ("", s) else
    var r := UpToQuote(s[1..]);
    ([s[0]] + r.0, r.1)
  }

  /** The text after a fixed opening, if it is there. */
  function Expect(open: string, s: string): Option<string> {
    if open <= s then Some(s[|open|..]) else None
  }

  /** Reads the four fields back, each up to its closing quote. */
  function Read(s: string): Option<CardData> {
    var a := Expect(PAN_OPEN, s);
    if a.None? then None else
    var pan := UpToQuote(a.value);
    var b := Expect(CVV_OPEN, pan.1);
    if b.None? then None else
    var cvv := UpToQuote(b.value);
    var c := Expect(EXPIRY_OPEN, cvv.1);
    if c.None? then None else
    var expiry := UpToQuote(c.value);
    var d := Expect(CARDHOLDER_OPEN, expiry.1);
    if d.None? then None else
    var cardholder := UpToQuote(d.value);
    if cardholder.1 == CLOSE then Some(CardData(pan.0, cvv.0, expiry.0, cardholder.0)) else None
  }

  predicate QuoteFreeCard(c: CardData) {
    QuoteFree(c.pan) && QuoteFree(c.cvv) && QuoteFree(c.expiry) && QuoteFree(c.cardholder)
  }

  lemma {:induction false} FirstQuote(f: string, rest: string)
    requires QuoteFree(f) && rest != "" && rest[0] == '\"'
    ensures UpToQuote(f + rest) == (f, rest)
    decreases |f|
  {
    if f == "" {
      assert f + rest == rest;
    } else {
      TailQuoteFree(f);
      hide QuoteFree;
      FirstQuote(f[1..], rest);
      assert (f + rest)[1..] == f[1..] + rest && (f + rest)[0] == f[0];
      assert f == [f[0]] + f[1..];
    }
  }

  lemma TailQuoteFree(f: string)
    requires QuoteFree(f) && f != ""
    ensures f[0] != '\"' && QuoteFree(f[1..])
  {}

  lemma Expected(open: string, rest: string)
    ensures Expect(open, open + rest) == Some(rest)
  {
    assert (open + rest)[|open|..] == rest;
  }

  /** A card without double quotes is read back from its template, field by field. */
  lemma ReadsBack(c: CardData)
    requires QuoteFreeCard(c)
    ensures Read(Template(c)) == Some(c)
  {
    hide UpToQuote, Expect;
    var r4 := CLOSE;
    var r3 := CARDHOLDER_OPEN + (c.cardholder + r4);
    var r2 := EXPIRY_OPEN + (c.expiry + r3);
    var r1 := CVV_OPEN + (c.cvv + r2);
    assert Template(c) == PAN_OPEN + (c.pan + r1);
    Expected(PAN_OPEN, c.pan + r1);
    FirstQuote(c.pan, r1);
    Expected(CVV_OPEN, c.cvv + r2);
    FirstQuote(c.cvv, r2);
    Expected(EXPIRY_OPEN, c.expiry + r3);
    FirstQuote(c.expiry, r3);
    Expected(CARDHOLDER_OPEN, c.cardholder + r4);
    FirstQuote(c.cardholder, r4);
  }

  lemma ExpectIs(open: string, s: string)
    ensures Expect(open, s).Some? ==> s == open + Expect(open, s).value
  {}

  /** The reader accepts a text only if it is the template of what it returns. */
  lemma ReadIsTemplate(s: string)
    ensures Read(s).Some? ==> s == Template(Read(s).value) && QuoteFreeCard(Read(s).value)
  {
    hide Expect;
    if Read(s).Some? {
      var a := Expect(PAN_OPEN, s).value;
      var pan := UpToQuote(a);
      var b := Expect(CVV_OPEN, pan.1).value;
      var cvv := UpToQuote(b);
      var c := Expect(EXPIRY_OPEN, cvv.1).value;
      var expiry := UpToQuote(c);
      var d := Expect(CARDHOLDER_OPEN, expiry.1).value;
      var cardholder := UpToQuote(d);
      ExpectIs(PAN_OPEN, s);
      ExpectIs(CVV_OPEN, pan.1);
      ExpectIs(EXPIRY_OPEN, cvv.1);
      ExpectIs(CARDHOLDER_OPEN, expiry.1);
      Joined(PAN_OPEN, pan.0, CVV_OPEN, cvv.0, EXPIRY_OPEN, expiry.0, CARDHOLDER_OPEN, cardholder.0, CLOSE,
             s, a, pan.1, b, cvv.1, c, expiry.1, d);
    }
  }

  lemma Joined(o1: string, f1: string, o2: string, f2: string, o3: string, f3: string, o4: string, f4: string,
               o5: string, s: string, a: string, r1: string, b: string, r2: string, c: string, r3: string, d: string)
    requires s == o1 + a && a == f1 + r1 && r1 == o2 + b && b == f2 + r2
    requires r2 == o3 + c && c == f3 + r3 && r3 == o4 + d && d == f4 + o5
    ensures s == o1 + f1 + o2 + f2 + o3 + f3 + o4 + f4 + o5
  {}

  /** The template reads back as the card exactly when no field contains a double quote. */
  lemma ReadsBackIff(c: CardData)
    ensures Read(Template(c)) == Some(c) <==> QuoteFreeCard(c)
  {
    if QuoteFreeCard(c) { ReadsBack(c); }
    ReadIsTemplate(Template(c));
  }

  /** Validated cards with equal plaintext are equal. */
  lemma TemplateUnambiguous(c: CardData, d: CardData)
    requires ValidCard(c) && ValidCard(d) && Template(c) == Template(d)
    ensures c == d
  {
    hide ValidCard;
    ValidFieldsQuoteFree(c);
    ValidFieldsQuoteFree(d);
    ReadsBack(c);
    ReadsBack(d);
  }
}
