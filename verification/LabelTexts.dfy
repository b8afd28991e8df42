/** The text of a label (to_string in src/asm_ostream.cpp), which names the stack frame of a
    call, and the frames inside a frame. */
module LabelTexts {
  import opened AsmSyntax

  function Digits(n: nat): string {
    if n < 10 then ['0' + n as char] else Digits(n / 10) + ['0' + (n % 10) as char]
  }

  function Decimal(n: int): string {
    if n < 0 then "-" + Digits(-n) else Digits(n)
  }

  /** to_string(label_t) */
  function LabelText(l: Label): string {
    if l == ENTRY then "entry"
    else if l == EXIT then "exit"
    else
      (if l.stackFramePrefix == "" then "" else l.stackFramePrefix + [STACK_FRAME_DELIMITER])
      + Decimal(l.from)
      + (if l.to == -1 then "" else ":" + Decimal(l.to))
      + (if l.special == "" then "" else " (" + l.special + ")")
  }

  lemma {:induction false} CountConcat(a: string, b: string)
    ensures CountDelimiters(a + b) == CountDelimiters(a) + CountDelimiters(b)
  {
    if a == "" {
      assert a + b == b;
    } else {
      CountConcat(a[1..], b);
      assert (a + b)[1..] == a[1..] + b;
    }
  }

  lemma {:induction false} DigitsPlain(n: nat)
    ensures CountDelimiters(Digits(n)) == 0 && Digits(n) != ""
  {
    if n >= 10 {
      DigitsPlain(n / 10);
      CountConcat(Digits(n / 10), ['0' + (n % 10) as char]);
    }
  }

  lemma DecimalPlain(n: int)
    ensures CountDelimiters(Decimal(n)) == 0 && Decimal(n) != ""
  {
    DigitsPlain(if n < 0 then -n else n);
    CountConcat("-", Digits(if n < 0 then -n else n));
  }

  lemma TextNotEmpty(l: Label)
    ensures LabelText(l) != ""
  {
    DecimalPlain(l.from);
  }

  /** A label's text has one delimiter per frame around it. */
  lemma TextDepth(l: Label)
    requires CountDelimiters(l.special) == 0
    ensures CountDelimiters(LabelText(l)) == l.CallStackDepth() - 1 && LabelText(l) != ""
  {
    if l == ENTRY || l == EXIT {
      assert CountDelimiters("entry") == 0 && CountDelimiters("exit") == 0 by {
        assert "entry"[1..] == "ntry" && "ntry"[1..] == "try" && "try"[1..] == "ry" && "ry"[1..] == "y";
        assert "exit"[1..] == "xit" && "xit"[1..] == "it" && "it"[1..] == "t";
      }
    } else {
      var prefix := if l.stackFramePrefix == "" then "" else l.stackFramePrefix + [STACK_FRAME_DELIMITER];
      var to := if l.to == -1 then "" else ":" + Decimal(l.to);
      var special := if l.special == "" then "" else " (" + l.special + ")";
      DecimalPlain(l.from);
      DecimalPlain(l.to);
      CountConcat(l.stackFramePrefix, [STACK_FRAME_DELIMITER]);
      CountConcat(":", Decimal(l.to));
      CountConcat(" (" + l.special, ")");
      CountConcat(" (", l.special);
      assert " ("[1..] == "(";
      CountConcat(prefix + Decimal(l.from) + to, special);
      CountConcat(prefix + Decimal(l.from), to);
      CountConcat(prefix, Decimal(l.from));
    }
  }

  // ----- labels inside a frame -----

  /** The frame named s is the frame named t or lies inside it. */
  predicate Under(s: string, t: string) {
    |t| <= |s| && s[..|t|] == t && (|s| == |t| || s[|t|] == STACK_FRAME_DELIMITER)
  }

  lemma UnderTransitive(s: string, t: string, u: string)
    requires Under(s, t) && Under(t, u)
    ensures Under(s, u)
  {
    assert s[..|u|] == s[..|t|][..|u|];
    if |u| < |t| {
      assert s[|u|] == s[..|t|][|u|];
    }
  }

  predicate NoDelimiter(s: string) {
    forall i :: 0 <= i < |s| ==> s[i] != STACK_FRAME_DELIMITER
  }

  lemma {:induction false} NoneCounted(s: string)
    requires CountDelimiters(s) == 0
    ensures NoDelimiter(s)
  {
    if s != "" {
      NoneCounted(s[1..]);
      forall i | 0 <= i < |s| ensures s[i] != STACK_FRAME_DELIMITER {
        if i > 0 {
          assert s[i] == s[1..][i - 1];
        }
      }
    }
  }

  /** Two frames directly inside the same one have nothing in common. */
  lemma FramesApart(s: string, p: string, d: string, e: string)
    requires Under(s, p + d) && Under(s, p + e) && NoDelimiter(d) && NoDelimiter(e)
    ensures d == e
  {
    if |d| < |e| {
      ShorterIsPart(s, p, d, e);
    } else if |e| < |d| {
      ShorterIsPart(s, p, e, d);
    } else {
      assert d == s[|p|..|p| + |d|] && e == s[|p|..|p| + |e|];
    }
  }

  lemma ShorterIsPart(s: string, p: string, d: string, e: string)
    requires Under(s, p + d) && Under(s, p + e) && |d| < |e|
    ensures !NoDelimiter(e)
  {
    var n := |p| + |d|;
    assert s[n] == s[..|p + e|][n] == (p + e)[n] == e[|d|];
  }

  // ----- frames of calls -----

  /** The text of an instruction inside a frame. */
  function FrameText(prefix: string, from: int): string {
    if prefix == "" then Decimal(from) else prefix + [STACK_FRAME_DELIMITER] + Decimal(from)
  }

  lemma TextOfInstruction(l: Label)
    requires l == Label(l.stackFramePrefix, l.from, -1, "") && l != ENTRY && l != EXIT
    ensures LabelText(l) == FrameText(l.stackFramePrefix, l.from)
  {
    assert LabelText(l) == FrameText(l.stackFramePrefix, l.from) + "" + "";
  }

  /** The text of a label inside a frame begins with the frame. */
  lemma TextInside(l: Label)
    requires l.stackFramePrefix != ""
    ensures Under(LabelText(l), l.stackFramePrefix) && |LabelText(l)| > |l.stackFramePrefix|
  {
    var rest := Decimal(l.from) + (if l.to == -1 then "" else ":" + Decimal(l.to))
      + (if l.special == "" then "" else " (" + l.special + ")");
    assert LabelText(l) == l.stackFramePrefix + ([STACK_FRAME_DELIMITER] + rest);
  }

  lemma {:induction false} DigitsApart(n: nat, m: nat)
    requires Digits(n) == Digits(m)
    ensures n == m
    decreases n
  {
    DigitsPlain(n / 10);
    DigitsPlain(m / 10);
    var a, b := Digits(n), Digits(m);
    assert a[|a| - 1] == b[|b| - 1] && a[..|a| - 1] == b[..|b| - 1];
    if n >= 10 && m >= 10 {
      assert a[..|a| - 1] == Digits(n / 10) && b[..|b| - 1] == Digits(m / 10);
      DigitsApart(n / 10, m / 10);
    }
  }

  lemma {:induction false} DigitsHaveNoSign(n: nat)
    ensures Digits(n) != "" && Digits(n)[0] != '-'
  {
    if n >= 10 {
      DigitsHaveNoSign(n / 10);
    }
  }

  lemma DecimalsApart(n: int, m: int)
    requires Decimal(n) == Decimal(m)
    ensures n == m
  {
    DigitsHaveNoSign(if n < 0 then -n else n);
    DigitsHaveNoSign(if m < 0 then -m else m);
    if n < 0 {
      assert Decimal(n)[1..] == Digits(-n) && Decimal(m)[1..] == Digits(-m);
    }
    DigitsApart(if n < 0 then -n else n, if m < 0 then -m else m);
  }

  /** The frames of two instructions inside one frame have nothing in common. */
  lemma CallsApart(s: string, prefix: string, from: int, other: int)
    requires Under(s, FrameText(prefix, from)) && Under(s, FrameText(prefix, other))
    ensures from == other
  {
    var p := if prefix == "" then "" else prefix + [STACK_FRAME_DELIMITER];
    DecimalPlain(from);
    DecimalPlain(other);
    NoneCounted(Decimal(from));
    NoneCounted(Decimal(other));
    assert FrameText(prefix, from) == p + Decimal(from) && FrameText(prefix, other) == p + Decimal(other);
    FramesApart(s, p, Decimal(from), Decimal(other));
    DecimalsApart(from, other);
  }
}
