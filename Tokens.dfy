/** How the calculator reads its input: the expression is cut into words at
    runs of Java whitespace, and each word is classified as an `int`
    literal, one of the six operator symbols, or an invalid token
    (PostfixCalculator.java, lines 16-24). */
module Tokens {
  import opened JavaInt
  import opened Decimal

  datatype Operator = Add | Sub | Mul | Div | Rem | Pow

  datatype Token = Number(value: int32) | Op(op: Operator) | Invalid(text: string)

  /** The symbol the user writes for each operator. */
  function Symbol(op: Operator): (s: string)
    ensures |s| == 1
  {
    match op
    case Add => "+"
    case Sub => "-"
    case Mul => "*"
    case Div => "/"
    case Rem => "%"
    case Pow => "^"
  }

  /** Membership in the operator set, giving the operator a symbol stands for. */
  function OperatorOf(w: string): (r: Option<Operator>)
    ensures r.Some? ==> Symbol(r.value) == w
    ensures r.None? ==> forall op :: Symbol(op) != w
  {
    if w == "+" then Some(Add)
    else if w == "-" then Some(Sub)
    else if w == "*" then Some(Mul)
    else if w == "/" then Some(Div)
    else if w == "%" then Some(Rem)
    else if w == "^" then Some(Pow)
    else None
  }

  /** Java's `Character.isWhitespace`, the delimiter of the scanner:
      the ASCII controls 9-13 and 28-31, and every Unicode space, line or
      paragraph separator except the three no-break spaces. */
  predicate IsWhitespace(c: char)
  {
    var k := c as int;
    (9 <= k <= 13) || (28 <= k <= 32) || k == 0x1680
    || (0x2000 <= k <= 0x200A && k != 0x2007)
    || k == 0x2028 || k == 0x2029 || k == 0x205F || k == 0x3000
  }

  /** The common delimiters, and the no-break spaces that are not delimiters. */
  lemma Delimiters()
    ensures IsWhitespace(' ') && IsWhitespace('\t') && IsWhitespace('\n') && IsWhitespace('\r')
    ensures IsWhitespace('\U{000B}') && IsWhitespace('\U{000C}') && IsWhitespace('\U{3000}')
    ensures !IsWhitespace('\U{00A0}') && !IsWhitespace('\U{2007}') && !IsWhitespace('\U{202F}')
    ensures forall c :: '0' <= c <= '9' ==> !IsWhitespace(c)
    ensures forall op :: !IsWhitespace(Symbol(op)[0])
  {
  }

  /** A scanner token: non-empty and without whitespace. */
  predicate IsWord(w: string)
  {
    w != [] && forall k :: 0 <= k < |w| ==> !IsWhitespace(w[k])
  }

  /** The end of the word that starts at the front of `s` and is known to run at least to `i`. */
  function WordEnd(s: string, i: nat): (n: nat)
    requires 0 < i <= |s|
    requires forall k :: 0 <= k < i ==> !IsWhitespace(s[k])
    ensures i <= n <= |s|
    ensures n == |s| || IsWhitespace(s[n])
    ensures forall k :: 0 <= k < n ==> !IsWhitespace(s[k])
    decreases |s| - i
  {
    if i == |s| || IsWhitespace(s[i]) then i else WordEnd(s, i + 1)
  }

  /** The words of `s`, left to right. */
  function Words(s: string): (ws: seq<string>)
    ensures forall j :: 0 <= j < |ws| ==> IsWord(ws[j])
    decreases |s|
  {
    if s == [] then []
    else if IsWhitespace(s[0]) then Words(s[1..])
    else
      var n := WordEnd(s, 1);
      [s[..n]] + Words(s[n..])
  }

  /** Classification of one word.  The integer test comes first, as in the
      source; a literal outside the `int` range is not an integer to the
      scanner and, not being an operator either, is an invalid token. */
  function Classify(w: string): (t: Token)
    ensures t.Number? <==> ParseInt(w).Some? && MIN <= ParseInt(w).value <= MAX
    ensures t.Number? ==> ParseInt(w) == Some(t.value as int)
    ensures t.Op? ==> Symbol(t.op) == w
    ensures t.Invalid? <==> !t.Number? && forall op :: Symbol(op) != w
    ensures t.Invalid? ==> t.text == w
  {
    var p := ParseInt(w);
    if p.Some? && MIN <= p.value <= MAX then Number(p.value)
    else
      match OperatorOf(w)
      case Some(op) => Op(op)
      case None => Invalid(w)
  }

  function ClassifyAll(ws: seq<string>): (ts: seq<Token>)
    ensures |ts| == |ws|
    ensures forall j :: 0 <= j < |ws| ==> ts[j] == Classify(ws[j])
  {
    if ws == [] then [] else [Classify(ws[0])] + ClassifyAll(ws[1..])
  }

  /** The token sequence the evaluator sees for an expression. */
  function Tokenize(s: string): (ts: seq<Token>)
    ensures |ts| == |Words(s)|
    ensures forall j :: 0 <= j < |ts| && ts[j].Invalid? ==> IsWord(ts[j].text)
  {
    ClassifyAll(Words(s))
  }

  /** Words separated by single spaces. */
  function Join(ws: seq<string>): string
  {
    if ws == [] then ""
    else if |ws| == 1 then ws[0]
    else ws[0] + " " + Join(ws[1..])
  }

  /** The text of a token as a user would type it. */
  function TokenText(t: Token): string
  {
    match t
    case Number(n) => IntToString(n)
    case Op(op) => Symbol(op)
    case Invalid(w) => w
  }

  /** An expression text for a token sequence. */
  function Render(ts: seq<Token>): string
  {
    Join(seq(|ts|, j requires 0 <= j < |ts| => TokenText(ts[j])))
  }

  /** A word followed by whitespace or by nothing is the first word. */
  lemma WordsOfWordThen(w: string, rest: string)
    requires IsWord(w)
    requires rest == [] || IsWhitespace(rest[0])
    ensures Words(w + rest) == [w] + Words(rest)
  {
    var s := w + rest;
    var n := WordEnd(s, 1);
    assert forall k :: 0 <= k < |w| ==> s[k] == w[k];
    assert rest != [] ==> s[|w|] == rest[0];
    assert n == |w|;
    assert s[..n] == w && s[n..] == rest;
  }

  /** Splitting undoes joining, for any sequence of words. */
  lemma {:induction false} WordsOfJoin(ws: seq<string>)
    requires forall j :: 0 <= j < |ws| ==> IsWord(ws[j])
    ensures Words(Join(ws)) == ws
  {
    if |ws| == 1 {
      WordsOfWordThen(ws[0], "");
      assert ws[0] + "" == ws[0];
    } else if |ws| > 1 {
      var rest := Join(ws[1..]);
      WordsOfJoin(ws[1..]);
      WordsOfWordThen(ws[0], " " + rest);
      assert ws[0] + " " + rest == ws[0] + (" " + rest);
      assert (" " + rest)[1..] == rest;
    }
  }

  /** A run of delimiters, possibly empty. */
  predicate IsBlank(s: string)
  {
    forall k :: 0 <= k < |s| ==> IsWhitespace(s[k])
  }

  /** The text `seps[0] + ws[0] + seps[1] + ... + ws[n - 1] + seps[n]`. */
  function Interleave(seps: seq<string>, ws: seq<string>): string
    requires |seps| == |ws| + 1
    decreases |ws|
  {
    if ws == [] then seps[0] else seps[0] + ws[0] + Interleave(seps[1..], ws[1..])
  }

  /** A layout of a text: words between runs of delimiters, with a
      non-empty run between any two words and possibly empty runs at
      either end. */
  predicate IsLayout(seps: seq<string>, ws: seq<string>)
  {
    |seps| == |ws| + 1
    && (forall j :: 0 <= j < |ws| ==> IsWord(ws[j]))
    && (forall j :: 0 <= j < |seps| ==> IsBlank(seps[j]))
    && (forall j :: 0 < j < |ws| ==> seps[j] != [])
  }

  /** Leading delimiters are skipped. */
  lemma {:induction false} WordsOfBlankThen(sep: string, rest: string)
    requires IsBlank(sep)
    ensures Words(sep + rest) == Words(rest)
    decreases |sep|
  {
    if sep != [] {
      var t := sep + rest;
      assert t[0] == sep[0] && IsWhitespace(t[0]);
      assert t[1..] == sep[1..] + rest;
      assert IsBlank(sep[1..]);
      WordsOfBlankThen(sep[1..], rest);
      assert Words(t) == Words(t[1..]);
    } else {
      assert sep + rest == rest;
    }
  }

  /** The scanner recovers the words of any layout: delimiter runs of any
      length and kind, and blanks at either end, separate words alike. */
  lemma {:induction false} WordsOfLayout(seps: seq<string>, ws: seq<string>)
    requires IsLayout(seps, ws)
    ensures Words(Interleave(seps, ws)) == ws
    decreases |ws|
  {
    if ws == [] {
      WordsOfBlankThen(seps[0], "");
      assert seps[0] + "" == seps[0];
    } else {
      var rest := Interleave(seps[1..], ws[1..]);
      assert IsLayout(seps[1..], ws[1..]);
      WordsOfLayout(seps[1..], ws[1..]);
      assert rest == [] || IsWhitespace(rest[0]) by {
        if |ws| > 1 {
          assert seps[1] != [];
          assert rest == seps[1] + ws[1] + Interleave(seps[2..], ws[2..]);
        } else {
          assert rest == seps[1];
        }
      }
      WordsOfWordThen(ws[0], rest);
      WordsOfBlankThen(seps[0], ws[0] + rest);
      assert Interleave(seps, ws) == seps[0] + (ws[0] + rest);
    }
  }

  /** A delimiter in front of a layout joins its first run. */
  lemma LayoutBlankFront(c: char, tail: seq<string>, ws: seq<string>)
    requires IsWhitespace(c) && IsLayout(tail, ws)
    ensures IsLayout([[c] + tail[0]] + tail[1..], ws)
    ensures Interleave([[c] + tail[0]] + tail[1..], ws) == [c] + Interleave(tail, ws)
  {
    var seps := [[c] + tail[0]] + tail[1..];
    assert forall j :: 0 < j < |seps| ==> seps[j] == tail[j];
    assert seps[1..] == tail[1..];
  }

  /** A word in front of a layout that begins with a word's end starts a new layout. */
  lemma LayoutWordFront(w: string, tail: seq<string>, ws: seq<string>)
    requires IsWord(w) && IsLayout(tail, ws)
    requires ws != [] ==> tail[0] != []
    ensures IsLayout([""] + tail, [w] + ws)
    ensures Interleave([""] + tail, [w] + ws) == w + Interleave(tail, ws)
  {
    var seps, ws' := [""] + tail, [w] + ws;
    assert forall j :: 0 < j < |seps| ==> seps[j] == tail[j - 1];
    assert seps[1..] == tail && ws'[1..] == ws;
  }

  /** Every text is a layout of its words. */
  lemma {:induction false} LayoutOfWords(s: string) returns (seps: seq<string>)
    ensures IsLayout(seps, Words(s))
    ensures Interleave(seps, Words(s)) == s
    ensures s != [] && IsWhitespace(s[0]) ==> seps[0] != []
    decreases |s|
  {
    if s == [] {
      seps := [""];
    } else if IsWhitespace(s[0]) {
      var tail := LayoutOfWords(s[1..]);
      LayoutBlankFront(s[0], tail, Words(s[1..]));
      seps := [[s[0]] + tail[0]] + tail[1..];
      assert s == [s[0]] + s[1..];
    } else {
      var n := WordEnd(s, 1);
      var tail := LayoutOfWords(s[n..]);
      LayoutWordFront(s[..n], tail, Words(s[n..]));
      seps := [""] + tail;
      assert s == s[..n] + s[n..];
    }
  }

  /** The words of a text are exactly the words of its layouts. */
  lemma WordsCharacterised(s: string, ws: seq<string>)
    ensures Words(s) == ws <==> exists seps :: IsLayout(seps, ws) && Interleave(seps, ws) == s
  {
    if Words(s) == ws {
      var seps := LayoutOfWords(s);
      assert IsLayout(seps, ws) && Interleave(seps, ws) == s;
    }
    if exists seps :: IsLayout(seps, ws) && Interleave(seps, ws) == s {
      var seps :| IsLayout(seps, ws) && Interleave(seps, ws) == s;
      WordsOfLayout(seps, ws);
    }
  }

  /** Each operator symbol is read back as that operator. */
  lemma ClassifySymbol(op: Operator)
    ensures Classify(Symbol(op)) == Op(op)
  {
  }

  /** Each rendered `int` is read back as that number. */
  lemma ClassifyIntToString(n: int32)
    ensures Classify(IntToString(n)) == Number(n)
  {
    ParseIntToString(n);
  }

  /** A rendered integer outside the `int` range is an invalid token. */
  lemma OutOfRangeIsInvalid(n: int)
    requires n < MIN || n > MAX
    ensures Classify(IntToString(n)) == Invalid(IntToString(n))
  {
    var w := IntToString(n);
    ParseIntToString(n);
    assert n < 0 ==> |w| >= 2;
    assert w != "-";
  }

  lemma TokenTextIsWord(t: Token)
    requires !t.Invalid?
    ensures IsWord(TokenText(t))
  {
  }

  /** Tokenizing the rendered text of a sequence of numbers and operators gives the sequence back. */
  lemma {:induction false} TokenizeRender(ts: seq<Token>)
    requires forall j :: 0 <= j < |ts| ==> !ts[j].Invalid?
    ensures Tokenize(Render(ts)) == ts
  {
    var ws := seq(|ts|, j requires 0 <= j < |ts| => TokenText(ts[j]));
    forall j | 0 <= j < |ws|
      ensures IsWord(ws[j]) && Classify(ws[j]) == ts[j]
    {
      TokenTextIsWord(ts[j]);
      match ts[j]
      case Number(n) => ClassifyIntToString(n);
      case Op(op) => ClassifySymbol(op);
    }
    WordsOfJoin(ws);
  }
}
