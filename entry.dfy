/** The check the "Registrar Atendimento" button applies to the typed identifier before
    anything is registered (atendimentos.py:176-184): blank input is refused with a
    warning, input that Python's `int()` cannot read is refused with an error, and
    anything else is handed on as an integer. */
module Entry {
  import opened Options
  import opened Decimal

  /** The characters Python's `str.isspace` accepts: what `str.strip()` removes. */
  predicate IsSpace(ch: char) {
    || '\t' <= ch <= '\r'
    || '\U{1C}' <= ch <= '\U{1F}'
    || ch == ' '
    || ch == '\U{85}'
    || ch == '\U{A0}'
    || ch == '\U{1680}'
    || '\U{2000}' <= ch <= '\U{200A}'
    || ch == '\U{2028}'
    || ch == '\U{2029}'
    || ch == '\U{202F}'
    || ch == '\U{205F}'
    || ch == '\U{3000}'
  }

  /** What `int()` removes from the ends of its argument: the ASCII characters
      " \t\n\v\f\r" and the non-ASCII whitespace. Unlike `strip()`, it keeps the
      separators U+001C to U+001F, and a number followed by one is not an integer. */
  predicate IsIntSpace(ch: char) {
    IsSpace(ch) && !('\U{1C}' <= ch <= '\U{1F}')
  }

  /** Which of the two whitespace sets is meant. */
  datatype Blanks = StripBlanks | IntBlanks

  predicate IsBlank(w: Blanks, ch: char) {
    match w
    case StripBlanks => IsSpace(ch)
    case IntBlanks => IsIntSpace(ch)
  }

  predicate AllBlank(w: Blanks, s: string) {
    forall i :: 0 <= i < |s| ==> IsBlank(w, s[i])
  }

  predicate AllSpace(s: string) {
    AllBlank(StripBlanks, s)
  }

  /** The first position at or after `i` that holds a non-blank, or `|s|` if there is
      none. */
  function SkipForward(w: Blanks, s: string, i: nat): (k: nat)
    requires i <= |s|
    ensures i <= k <= |s|
    ensures forall j :: i <= j < k ==> IsBlank(w, s[j])
    ensures k < |s| ==> !IsBlank(w, s[k])
    decreases |s| - i
  {
    if i == |s| || !IsBlank(w, s[i]) then i else SkipForward(w, s, i + 1)
  }

  /** The position just after the last non-blank before `j`, or 0 if there is none. */
  function SkipBackward(w: Blanks, s: string, j: nat): (k: nat)
    requires j <= |s|
    ensures k <= j
    ensures forall i :: k <= i < j ==> IsBlank(w, s[i])
    ensures 0 < k ==> !IsBlank(w, s[k - 1])
  {
    if j == 0 || !IsBlank(w, s[j - 1]) then j else SkipBackward(w, s, j - 1)
  }

  /** `s` without its leading and trailing blanks; `TrimShape` and `TrimEmpty` say what
      that is. */
  function Trim(w: Blanks, s: string): string {
    var lo := SkipForward(w, s, 0);
    if lo == |s| then [] else s[lo..SkipBackward(w, s, |s|)]
  }

  /** Trimming leaves nothing exactly when `s` is all blanks. */
  lemma TrimEmpty(w: Blanks, s: string)
    ensures Trim(w, s) == [] <==> AllBlank(w, s)
  {
    var lo := SkipForward(w, s, 0);
    if lo < |s| {
      var hi := SkipBackward(w, s, |s|);
      assert lo < hi;
    }
  }

  /** Trimming gives the slice of `s` that, unless empty, starts and ends with a
      non-blank, with only blanks after it (and, by `SkipForward`, only blanks before
      it). */
  lemma TrimShape(w: Blanks, s: string)
    ensures var t := Trim(w, s);
            var lo := SkipForward(w, s, 0);
            && (t != [] ==> !IsBlank(w, t[0]) && !IsBlank(w, t[|t| - 1]))
            && lo + |t| <= |s|
            && t == s[lo..lo + |t|]
            && (forall i :: lo + |t| <= i < |s| ==> IsBlank(w, s[i]))
  {
    var lo := SkipForward(w, s, 0);
    if lo < |s| {
      var hi := SkipBackward(w, s, |s|);
      assert lo < hi;
      SliceBetween(w, s, lo, hi);
    } else {
      assert s[lo..lo] == [];
    }
  }

  /** A slice that starts and ends with a non-blank. */
  lemma SliceBetween(w: Blanks, s: string, lo: nat, hi: nat)
    requires lo < hi <= |s| && !IsBlank(w, s[lo]) && !IsBlank(w, s[hi - 1])
    ensures var t := s[lo..hi];
            && lo + |t| == hi && t == s[lo..lo + |t|]
            && !IsBlank(w, t[0]) && !IsBlank(w, t[|t| - 1])
  {
  }

  /** Python's `s.strip()`. */
  function Strip(s: string): string {
    Trim(StripBlanks, s)
  }

  /** The digits of a base-10 literal as `int()` accepts them: ASCII digits, with
      single underscores allowed between two digits. */
  predicate IsDigitPart(u: string) {
    && |u| > 0
    && IsDigit(u[0])
    && IsDigit(u[|u| - 1])
    && (forall i :: 0 <= i < |u| ==> IsDigit(u[i]) || u[i] == '_')
    && (forall i :: 0 <= i < |u| - 1 ==> DigitAfterUnderscore(u, i))
  }

  /** An underscore at position `i` is followed by a digit. */
  predicate DigitAfterUnderscore(u: string, i: nat)
    requires i < |u| - 1
  {
    u[i] == '_' ==> IsDigit(u[i + 1])
  }

  function WithoutUnderscores(u: string): (d: string)
    requires forall i :: 0 <= i < |u| ==> IsDigit(u[i]) || u[i] == '_'
    ensures AllDigits(d) && |d| <= |u|
  {
    if u == [] then []
    else if u[0] == '_' then WithoutUnderscores(u[1..])
    else [u[0]] + WithoutUnderscores(u[1..])
  }

  function DigitPart(u: string): Option<nat> {
    if IsDigitPart(u) then Some(Value(WithoutUnderscores(u))) else None
  }

  /** An optional sign followed by the digits, with nothing around them. */
  function ParseSigned(t: string): Option<int> {
    if t != [] && (t[0] == '-' || t[0] == '+') then
      match DigitPart(t[1..])
      case Some(v) => var n: int := v; Some(if t[0] == '-' then -n else n)
      case None => None
    else
      match DigitPart(t)
      case Some(v) => Some(v)
      case None => None
  }

  /** Python's `int(s)` in base 10: the whitespace `int()` ignores is removed from the
      ends, an optional sign comes first, then the digits; `None` where `int()` raises
      ValueError. */
  function ParseInt(s: string): (r: Option<int>)
    ensures r.Some? ==> !AllSpace(s)
  {
    var t := Trim(IntBlanks, s);
    TrimShape(IntBlanks, s);
    assert t != [] ==> t[0] == s[SkipForward(IntBlanks, s, 0)];
    ParseSigned(t)
  }

  /** The canonical decimal rendering of an integer, as `str(n)` prints it. */
  function ShowInt(n: int): (s: string)
    ensures |s| > 0
  {
    if n < 0 then "-" + ShowNat(-n) else ShowNat(n)
  }

  /** The three ways the button handler treats what was typed. */
  datatype Submission = Blank | NotANumber | Number(matricula: int)

  /** The handler's decision: blank after stripping, not an integer, or the integer
      that is passed on to the registration. */
  function Classify(raw: string): (c: Submission)
    ensures c == Blank <==> AllSpace(raw)
    ensures c == NotANumber <==> !AllSpace(raw) && ParseInt(raw) == None
    ensures c.Number? ==> ParseInt(raw) == Some(c.matricula)
  {
    TrimEmpty(StripBlanks, raw);
    if Strip(raw) == [] then Blank
    else match ParseInt(raw)
      case Some(n) => Number(n)
      case None => NotANumber
  }

  lemma {:induction false} WithoutUnderscoresDigits(d: string)
    requires AllDigits(d)
    ensures WithoutUnderscores(d) == d
  {
    if d != [] {
      WithoutUnderscoresDigits(d[1..]);
    }
  }

  lemma {:induction false} WithoutUnderscoresConcat(x: string, y: string)
    requires forall i :: 0 <= i < |x| ==> IsDigit(x[i]) || x[i] == '_'
    requires forall i :: 0 <= i < |y| ==> IsDigit(y[i]) || y[i] == '_'
    ensures WithoutUnderscores(x + y) == WithoutUnderscores(x) + WithoutUnderscores(y)
  {
    if x != [] {
      assert (x + y)[0] == x[0];
      assert (x + y)[1..] == x[1..] + y;
      WithoutUnderscoresConcat(x[1..], y);
      if x[0] != '_' {
        var rest := WithoutUnderscores(x[1..]);
        assert [x[0]] + (rest + WithoutUnderscores(y)) == ([x[0]] + rest) + WithoutUnderscores(y);
      }
    } else {
      assert x + y == y;
    }
  }

  /** Blanks around a word are exactly what trimming removes. */
  lemma {:induction false} TrimPadded(w: Blanks, front: string, word: string, back: string)
    requires AllBlank(w, front) && AllBlank(w, back)
    requires word != [] && !IsBlank(w, word[0]) && !IsBlank(w, word[|word| - 1])
    ensures Trim(w, front + word + back) == word
  {
    var s := front + word + back;
    var lo, hi := |front|, |front| + |word|;
    assert forall i :: 0 <= i < lo ==> s[i] == front[i];
    assert forall i :: hi <= i < |s| ==> s[i] == back[i - hi];
    assert s[lo] == word[0] && s[hi - 1] == word[|word| - 1];
    SkipForwardStops(w, s, 0, lo);
    SkipBackwardStops(w, s, |s|, hi);
    assert s[lo..hi] == word;
  }

  /** Scanning forward from `i` stops at the first non-blank. */
  lemma SkipForwardStops(w: Blanks, s: string, i: nat, k: nat)
    requires i <= k < |s|
    requires forall j :: i <= j < k ==> IsBlank(w, s[j])
    requires !IsBlank(w, s[k])
    ensures SkipForward(w, s, i) == k
  {
  }

  /** Scanning backward from `j` stops just after the last non-blank. */
  lemma SkipBackwardStops(w: Blanks, s: string, j: nat, k: nat)
    requires 0 < k <= j <= |s|
    requires forall i :: k <= i < j ==> IsBlank(w, s[i])
    requires !IsBlank(w, s[k - 1])
    ensures SkipBackward(w, s, j) == k
  {
  }

  /** A sign and a digit part, with nothing around them, are read as the value of the
      digits with the underscores left out, negated after a minus. */
  lemma {:induction false} ParseSignedDigitPart(sign: string, u: string)
    requires sign == "" || sign == "+" || sign == "-"
    requires IsDigitPart(u)
    ensures var v: int := Value(WithoutUnderscores(u));
            ParseSigned(sign + u) == Some(if sign == "-" then -v else v)
  {
    if sign != "" {
      assert (sign + u)[1..] == u;
    } else {
      assert sign + u == u;
    }
  }

  /** `int()` reads a sign and a digit part, with whitespace it ignores around them, as
      the value of the digits with the underscores left out, negated after a minus. */
  lemma {:induction false} ParseIntDigitPart(s: string, front: string, sign: string, u: string, back: string)
    requires s == front + sign + u + back
    requires AllBlank(IntBlanks, front) && AllBlank(IntBlanks, back)
    requires sign == "" || sign == "+" || sign == "-"
    requires IsDigitPart(u)
    ensures var v: int := Value(WithoutUnderscores(u));
            ParseInt(s) == Some(if sign == "-" then -v else v)
  {
    var word := sign + u;
    assert word[0] == (if sign == "" then u[0] else sign[0]);
    assert word[|word| - 1] == u[|u| - 1];
    assert s == front + word + back;
    TrimPadded(IntBlanks, front, word, back);
    ParseSignedDigitPart(sign, u);
  }

  /** `t` is an optional sign followed by a digit part, and nothing else. */
  predicate IntLiteral(t: string, sign: string, u: string) {
    (sign == "" || sign == "+" || sign == "-") && IsDigitPart(u) && t == sign + u
  }

  /** `ParseSigned` accepts exactly the strings that are an optional sign followed by a
      digit part, and reads each as the value of its digits, negated after a minus. */
  lemma {:induction false} ParseSignedShape(t: string)
    ensures ParseSigned(t).Some? <==> exists sign, u :: IntLiteral(t, sign, u)
    ensures forall sign, u :: IntLiteral(t, sign, u) ==>
              var v: int := Value(WithoutUnderscores(u));
              ParseSigned(t) == Some(if sign == "-" then -v else v)
  {
    forall sign, u | IntLiteral(t, sign, u)
      ensures var v: int := Value(WithoutUnderscores(u));
              ParseSigned(t) == Some(if sign == "-" then -v else v)
    {
      ParseSignedDigitPart(sign, u);
    }
    if ParseSigned(t).Some? {
      if t != [] && (t[0] == '-' || t[0] == '+') {
        assert t == t[..1] + t[1..] && t[..1] == [t[0]];
        assert IntLiteral(t, t[..1], t[1..]);
      } else {
        assert t == "" + t;
        assert IntLiteral(t, "", t);
      }
    }
  }

  /** Exactly the inputs that are, once the whitespace `int()` ignores is trimmed, an
      optional sign followed by a digit part are read by `int()`, and each is read as the
      value of its digits, negated after a minus; on everything else `int()` raises. */
  lemma {:induction false} ParseIntShape(s: string)
    ensures ParseInt(s).Some? <==> exists sign, u :: IntLiteral(Trim(IntBlanks, s), sign, u)
    ensures forall sign, u :: IntLiteral(Trim(IntBlanks, s), sign, u) ==>
              var v: int := Value(WithoutUnderscores(u));
              ParseInt(s) == Some(if sign == "-" then -v else v)
  {
    var t := Trim(IntBlanks, s);
    assert ParseInt(s) == ParseSigned(t);
    ParseSignedShape(t);
  }

  /** Zeros in front of a canonical rendering form a digit part of the same value. */
  lemma {:induction false} DigitPartLeadingZeros(zeros: string, m: nat)
    requires AllZeros(zeros)
    ensures IsDigitPart(zeros + ShowNat(m)) && Value(WithoutUnderscores(zeros + ShowNat(m))) == m
  {
    var d := ShowNat(m);
    var u := zeros + d;
    ValueLeadingZeros(zeros, d);
    ValueShowNat(m);
    assert IsDigit(u[0]);
    assert u[|u| - 1] == d[|d| - 1];
    WithoutUnderscoresDigits(u);
  }

  /** Two runs of digits joined by one underscore form a digit part of the joined digits. */
  lemma {:induction false} DigitPartUnderscore(a: string, b: string)
    requires a != [] && b != [] && AllDigits(a) && AllDigits(b)
    ensures IsDigitPart(a + "_" + b) && WithoutUnderscores(a + "_" + b) == a + b
  {
    var u := a + "_" + b;
    assert forall i :: 0 <= i < |u| ==> IsDigit(u[i]) || u[i] == '_' by {
      forall i | 0 <= i < |u| ensures IsDigit(u[i]) || u[i] == '_' {
        if i > |a| {
          assert u[i] == b[i - |a| - 1];
        }
      }
    }
    assert u[|u| - 1] == b[|b| - 1];
    assert u[|a| + 1] == b[0];
    UnderscoreDropped(a, b);
  }

  lemma {:induction false} UnderscoreDropped(a: string, b: string)
    requires AllDigits(a) && AllDigits(b)
    ensures WithoutUnderscores(a + "_" + b) == a + b
  {
    var a_ := a + "_";
    assert forall i :: 0 <= i < |a_| ==> IsDigit(a_[i]) || a_[i] == '_';
    WithoutUnderscoresConcat(a_, b);
    WithoutUnderscoresConcat(a, "_");
    WithoutUnderscoresDigits(a);
    WithoutUnderscoresDigits(b);
    assert WithoutUnderscores("_") == [];
    assert a + [] == a;
  }

  lemma {:induction false} ParseIntOfTrimmed(s: string, sign: string, u: string)
    requires sign == "" || sign == "+" || sign == "-"
    requires IsDigitPart(u)
    requires Trim(IntBlanks, s) == sign + u
    ensures var v: int := Value(WithoutUnderscores(u));
            ParseInt(s) == Some(if sign == "-" then -v else v)
  {
    ParseSignedDigitPart(sign, u);
  }

  /** Zeros in front of the digits do not change the number: " 01001 " is 1001, with or
      without a sign, whatever whitespace `int()` ignores surrounds it. */
  lemma {:induction false} ParseIntLeadingZeros(s: string, sign: string, zeros: string, m: nat)
    requires sign == "" || sign == "+" || sign == "-"
    requires AllZeros(zeros)
    requires Trim(IntBlanks, s) == sign + (zeros + ShowNat(m))
    ensures var v: int := m;
            ParseInt(s) == Some(if sign == "-" then -v else v)
  {
    DigitPartLeadingZeros(zeros, m);
    ParseIntOfTrimmed(s, sign, zeros + ShowNat(m));
  }

  /** A single underscore between two runs of digits is ignored: "1_001" is 1001, with or
      without a sign, whatever whitespace `int()` ignores surrounds it. */
  lemma {:induction false} ParseIntUnderscore(s: string, sign: string, a: string, b: string)
    requires sign == "" || sign == "+" || sign == "-"
    requires a != [] && b != [] && AllDigits(a) && AllDigits(b)
    requires Trim(IntBlanks, s) == sign + (a + "_" + b)
    ensures AllDigits(a + b)
    ensures var v: int := Value(a + b);
            ParseInt(s) == Some(if sign == "-" then -v else v)
  {
    DigitPartUnderscore(a, b);
    ParseIntOfTrimmed(s, sign, a + "_" + b);
  }

  /** `int()` reads back every integer as `str()` prints it, with whitespace it ignores
      around it. */
  lemma {:induction false} ParseIntShowInt(n: int, front: string, back: string)
    requires AllBlank(IntBlanks, front) && AllBlank(IntBlanks, back)
    ensures ParseInt(front + ShowInt(n) + back) == Some(n)
  {
    var m: nat := if n < 0 then -n else n;
    var sign := if n < 0 then "-" else "";
    DigitPartShowNat(m);
    assert ShowInt(n) == sign + ShowNat(m);
    ParseIntDigitPart(front + ShowInt(n) + back, front, sign, ShowNat(m), back);
  }

  lemma {:induction false} DigitPartShowNat(m: nat)
    ensures IsDigitPart(ShowNat(m)) && Value(WithoutUnderscores(ShowNat(m))) == m
  {
    ValueShowNat(m);
    WithoutUnderscoresDigits(ShowNat(m));
  }

  /** Every integer, typed as `str()` prints it and with whitespace that `int()` ignores
      around it, reaches the registration as that same integer. */
  lemma {:induction false} ClassifyShowInt(n: int, front: string, back: string)
    requires AllBlank(IntBlanks, front) && AllBlank(IntBlanks, back)
    ensures Classify(front + ShowInt(n) + back) == Number(n)
  {
    ParseIntShowInt(n, front, back);
  }

  /** A character that is not a digit, `_`, a sign or whitespace `int()` ignores makes
      non-blank input fail, wherever it stands. */
  lemma NonDigitRejected(raw: string, i: nat)
    requires i < |raw| && !AllSpace(raw)
    requires var ch := raw[i]; !IsDigit(ch) && ch != '_' && ch != '+' && ch != '-' && !IsIntSpace(ch)
    ensures Classify(raw) == NotANumber
  {
    var k := SkipForward(IntBlanks, raw, 0);
    var t := Trim(IntBlanks, raw);
    TrimShape(IntBlanks, raw);
    assert k <= i < k + |t|;
    assert t[i - k] == raw[i];
    if t[0] == '-' || t[0] == '+' {
      assert t[1..][i - k - 1] == t[i - k];
    }
  }

  /** Whitespace that `int()` ignores at the ends is refused between two other
      characters: "12 34" is not an integer. */
  lemma InnerSpaceRejected(raw: string, j: nat, i: nat, k: nat)
    requires j < i < k < |raw| && !AllSpace(raw)
    requires !IsIntSpace(raw[j]) && IsIntSpace(raw[i]) && !IsIntSpace(raw[k])
    ensures Classify(raw) == NotANumber
  {
    var front := SkipForward(IntBlanks, raw, 0);
    var t := Trim(IntBlanks, raw);
    TrimShape(IntBlanks, raw);
    assert front <= j && k < front + |t|;
    assert t[i - front] == raw[i];
    if t[0] == '-' || t[0] == '+' {
      assert t[1..][i - front - 1] == t[i - front];
    }
  }

  /** A space between the digits is refused. */
  lemma InnerSpaceExample()
    ensures Classify("12 34") == NotANumber
  {
    var raw := "12 34";
    assert !IsSpace(raw[0]);
    InnerSpaceRejected(raw, 0, 2, 4);
  }

  /** A badge number followed by the group separator U+001D, which barcode scanners
      send, passes the blank test but is not an integer for `int()`. */
  lemma ScannerSeparatorRejected()
    ensures Classify("1001\U{1D}") == NotANumber
  {
    var raw := "1001\U{1D}";
    assert !IsSpace(raw[0]);
    NonDigitRejected(raw, 4);
  }
}
