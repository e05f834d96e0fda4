/**
  The argument-threading rewriter, scripts/add_argument.py:50-180: blank out
  literals and comments, find the calls of one function, split their arguments
  and put one more argument into each outermost call.

  Characters are those of ASCII: `\s` and isalnum() mean more in Python.
 */
module AddArgument {
  import opened Basics

  // ------------------------------------------------------------------- tokens

  /** A token at the front of a text: how long it is, whether it is a literal or comment, whether its end was seen. */
  datatype Token = Token(length: nat, span: bool, closed: bool)

  function Longer(t: Token, more: nat): Token { t.(length := t.length + more) }

  /** The rest of a literal after its opening quote; a backslash takes the next character with it, there or not. */
  function InLiteral(s: string, quote: char): (t: Token)
    ensures t.closed ==> 0 < t.length <= |s|
    ensures !t.closed ==> |s| <= t.length <= |s| + 1
    ensures t.span
  {
    if s == "" then Token(0, true, false)
    else if s[0] == '\\' then
      if |s| == 1 then Token(2, true, false) else Longer(InLiteral(s[2..], quote), 2)
    else if s[0] == quote then Token(1, true, true)
    else Longer(InLiteral(s[1..], quote), 1)
  }

  /** A line comment ends before its newline. */
  function InLine(s: string): (t: Token)
    ensures t.closed ==> t.length < |s| && s[t.length] == '\n'
    ensures !t.closed ==> t.length == |s|
    ensures t.span
  {
    if s == "" then Token(0, true, false)
    else if s[0] == '\n' then Token(0, true, true)
    else Longer(InLine(s[1..]), 1)
  }

  /** The rest of a block comment after its opening. */
  function InBlock(s: string): (t: Token)
    ensures t.closed ==> 2 <= t.length <= |s|
    ensures !t.closed ==> t.length == |s|
    ensures t.span
  {
    if |s| < 2 then Token(|s|, true, false)
    else if s[0] == '*' && s[1] == '/' then Token(2, true, true)
    else Longer(InBlock(s[1..]), 1)
  }

  predicate IsQuote(c: char) { c == '"' || c == '\'' }

  predicate OpensLine(s: string) { |s| > 1 && s[0] == '/' && s[1] == '/' }

  predicate OpensBlock(s: string) { |s| > 1 && s[0] == '/' && s[1] == '*' }

  function FirstToken(s: string): (t: Token)
    requires s != ""
    ensures t.length > 0
    ensures t.closed ==> t.length <= |s|
    ensures !t.closed ==> t.span && t.length >= |s|
    ensures t.span || t.length == 1
  {
    if IsQuote(s[0]) then Longer(InLiteral(s[1..], s[0]), 1)
    else if OpensLine(s) then assert s[0] != '\n'; InLine(s)
    else if OpensBlock(s) then Longer(InBlock(s[2..]), 2)
    else Token(1, false, true)
  }

  function Blanked(c: char): char { if c == '\n' then '\n' else ' ' }

  function Blank(s: string): (b: string)
    ensures |b| == |s|
  {
    seq(|s|, k requires 0 <= k < |s| => Blanked(s[k]))
  }

  function Min(a: nat, b: nat): nat { if a < b then a else b }

  /** The text with literals and comments blanked, positions and newlines kept. */
  function MaskOf(s: string): (m: string)
    ensures |m| == |s|
    ensures forall k | 0 <= k < |s| :: m[k] == s[k] || m[k] == Blanked(s[k])
    decreases |s|
  {
    if s == "" then ""
    else
      var t := FirstToken(s);
      var n := Min(t.length, |s|);
      Painted(t, s[..n]) + MaskOf(s[n..])
  }

  function Painted(t: Token, s: string): (p: string)
    ensures |p| == |s|
    ensures forall k | 0 <= k < |s| :: p[k] == s[k] || p[k] == Blanked(s[k])
  {
    if t.span then Blank(s) else s
  }

  /** The last literal ends on a backslash: its span reaches past the text. */
  predicate Overruns(s: string)
    decreases |s|
  {
    s != "" && (FirstToken(s).length > |s| || Overruns(s[FirstToken(s).length..]))
  }

  /** Every literal and comment in the text is finished inside it. */
  predicate Closed(s: string)
    decreases |s|
  {
    s == "" || (FirstToken(s).closed && Closed(s[FirstToken(s).length..]))
  }

  // ------------------------------------------------------ lexing concatenations

  predicate IsSpace(c: char) { 9 <= c as int <= 13 || 28 <= c as int <= 32 }

  /** A character that stands alone and cannot lengthen a slash before it. */
  predicate Separator(c: char) { c in "()," || IsSpace(c) }

  lemma {:induction false} LiteralExtends(a: string, b: string, quote: char)
    requires InLiteral(a, quote).closed
    ensures InLiteral(a + b, quote) == InLiteral(a, quote)
    decreases |a|
  {
    if a[0] == '\\' {
      assert (a + b)[2..] == a[2..] + b;
      LiteralExtends(a[2..], b, quote);
    } else if a[0] != quote {
      assert (a + b)[1..] == a[1..] + b;
      LiteralExtends(a[1..], b, quote);
    }
  }

  lemma {:induction false} LineExtends(a: string, b: string)
    requires InLine(a).closed
    ensures InLine(a + b) == InLine(a)
    decreases |a|
  {
    if a[0] != '\n' {
      assert (a + b)[1..] == a[1..] + b;
      LineExtends(a[1..], b);
    }
  }

  lemma {:induction false} BlockExtends(a: string, b: string)
    requires InBlock(a).closed
    ensures InBlock(a + b) == InBlock(a)
    decreases |a|
  {
    if !(a[0] == '*' && a[1] == '/') {
      assert (a + b)[1..] == a[1..] + b;
      BlockExtends(a[1..], b);
    }
  }

  /** A finished token stays what it is, whatever separator comes after the text it is in. */
  lemma TokenExtends(a: string, b: string)
    requires a != "" && FirstToken(a).closed
    requires b != "" && Separator(b[0])
    ensures FirstToken(a + b) == FirstToken(a)
  {
    if IsQuote(a[0]) {
      assert (a + b)[1..] == a[1..] + b;
      LiteralExtends(a[1..], b, a[0]);
    } else if OpensLine(a) {
      LineExtends(a, b);
    } else if OpensBlock(a) {
      assert (a + b)[2..] == a[2..] + b;
      BlockExtends(a[2..], b);
    } else if |a| == 1 {
      assert (a + b)[1] == b[0];
    }
  }

  /** One token off the front of a text. */
  lemma Unfold(s: string)
    requires s != "" && FirstToken(s).length <= |s|
    ensures var t := FirstToken(s); MaskOf(s) == Painted(t, s[..t.length]) + MaskOf(s[t.length..])
    ensures Closed(s) <==> FirstToken(s).closed && Closed(s[FirstToken(s).length..])
    ensures Overruns(s) <==> Overruns(s[FirstToken(s).length..])
  {
    hide FirstToken, Painted;
  }

  /** What the first token of a text followed by a separator leaves. */
  lemma FrontOfConcat(a: string, b: string)
    requires a != "" && Closed(a) && b != "" && Separator(b[0])
    ensures FirstToken(a).closed && Closed(a[FirstToken(a).length..])
    ensures FirstToken(a + b) == FirstToken(a)
    ensures var n := FirstToken(a).length; (a + b)[n..] == a[n..] + b && (a + b)[..n] == a[..n]
  {
    hide Separator, FirstToken;
    TokenExtends(a, b);
    hide Closed;
    Slices(a, b, FirstToken(a).length);
  }

  lemma Slices(a: string, b: string, n: nat)
    requires n <= |a|
    ensures (a + b)[n..] == a[n..] + b && (a + b)[..n] == a[..n]
  {}

  /** Lexing composes where a finished text meets a separator. */
  lemma {:induction false} MaskConcat(a: string, b: string)
    requires Closed(a) && b != "" && Separator(b[0])
    ensures MaskOf(a + b) == MaskOf(a) + MaskOf(b)
    decreases |a|
  {
    hide FirstToken, Painted, Separator, Closed, MaskOf;
    if a == "" {
      assert a + b == b && MaskOf(a) + MaskOf(b) == MaskOf(b);
    } else {
      FrontOfConcat(a, b);
      var n := FirstToken(a).length;
      MaskConcat(a[n..], b);
      calc {
        MaskOf(a + b);
        { Unfold(a + b); }
        Painted(FirstToken(a), a[..n]) + MaskOf(a[n..] + b);
        Painted(FirstToken(a), a[..n]) + (MaskOf(a[n..]) + MaskOf(b));
        (Painted(FirstToken(a), a[..n]) + MaskOf(a[n..])) + MaskOf(b);
        { Unfold(a); }
        MaskOf(a) + MaskOf(b);
      }
    }
  }

  lemma {:induction false} ClosedConcat(a: string, b: string)
    requires Closed(a) && b != "" && Separator(b[0])
    ensures Closed(a + b) <==> Closed(b)
    ensures Overruns(a + b) <==> Overruns(b)
    decreases |a|
  {
    hide FirstToken, Painted, Separator, Closed, MaskOf, Overruns;
    if a == "" {
      assert a + b == b;
    } else {
      FrontOfConcat(a, b);
      Unfold(a + b);
      ClosedConcat(a[FirstToken(a).length..], b);
    }
  }

  lemma MaskOfSeparator(c: char, b: string)
    requires Separator(c)
    ensures MaskOf([c] + b) == [c] + MaskOf(b)
    ensures Closed([c] + b) <==> Closed(b)
    ensures Overruns([c] + b) <==> Overruns(b)
  {
    hide InLiteral, InLine, InBlock;
    var s := [c] + b;
    assert s[1..] == b && s[..1] == [c];
    assert FirstToken(s) == Token(1, false, true);
  }

  // --------------------------------------------------- cutting at a code character

  lemma {:induction false} LiteralRestricts(s: string, k: nat, quote: char)
    requires InLiteral(s, quote).closed && InLiteral(s, quote).length <= k <= |s|
    ensures InLiteral(s[..k], quote).closed
    decreases |s|
  {
    if s[0] == '\\' {
      assert s[..k][2..] == s[2..][..k - 2];
      LiteralRestricts(s[2..], k - 2, quote);
    } else if s[0] != quote {
      assert s[..k][1..] == s[1..][..k - 1];
      LiteralRestricts(s[1..], k - 1, quote);
    }
  }

  lemma {:induction false} LineRestricts(s: string, k: nat)
    requires InLine(s).closed && InLine(s).length < k <= |s|
    ensures InLine(s[..k]).closed
    decreases |s|
  {
    if s[0] != '\n' {
      assert s[..k][1..] == s[1..][..k - 1];
      LineRestricts(s[1..], k - 1);
    }
  }

  lemma {:induction false} BlockRestricts(s: string, k: nat)
    requires InBlock(s).closed && InBlock(s).length <= k <= |s|
    ensures InBlock(s[..k]).closed
    decreases |s|
  {
    if !(s[0] == '*' && s[1] == '/') {
      assert s[..k][1..] == s[1..][..k - 1];
      BlockRestricts(s[1..], k - 1);
    }
  }

  /** A token that ends before a code character is finished without it. */
  lemma TokenRestricts(s: string, k: nat)
    requires k < |s| && FirstToken(s).length <= k && s[k] in "(),"
    ensures FirstToken(s[..k]) == FirstToken(s) && FirstToken(s).closed
  {
    var a, b := s[..k], s[k..];
    assert a + b == s;
    if IsQuote(s[0]) {
      assert a[1..] == s[1..][..k - 1];
      LiteralRestricts(s[1..], k - 1, s[0]);
    } else if OpensLine(s) {
      LineRestricts(s, k);
    } else if OpensBlock(s) {
      assert a[2..] == s[2..][..k - 2];
      BlockRestricts(s[2..], k - 2);
    }
    TokenExtends(a, b);
  }

  lemma {:induction false} FinishedBefore(s: string, k: nat)
    requires k < |s| && MaskOf(s)[k] in "(),"
    ensures s[k] == MaskOf(s)[k] && Closed(s[..k])
    decreases k
  {
    hide FirstToken, Painted, MaskOf;
    var t := FirstToken(s);
    var n := t.length;
    if n <= k {
      Unfold(s);
      FinishedBefore(s[n..], k - n);
      TokenRestricts(s, k);
      Unfold(s[..k]);
      assert s[..k][n..] == s[n..][..k - n];
    } else {
      FrontOfMask(s, k);
      assert !t.span;
      assert s[..k] == "" && Closed("");
    }
  }

  lemma FrontOfMask(s: string, k: nat)
    requires k < |s| && k < FirstToken(s).length
    ensures MaskOf(s)[k] == if FirstToken(s).span then Blanked(s[k]) else s[k]
  {
    hide FirstToken;
    var n := Min(FirstToken(s).length, |s|);
    assert MaskOf(s) == Painted(FirstToken(s), s[..n]) + MaskOf(s[n..]);
  }

  /** Finished text, a separator, and whatever follows are lexed apart. */
  lemma MaskAround(a: string, c: char, b: string)
    requires Closed(a) && Separator(c)
    ensures MaskOf(a + ([c] + b)) == MaskOf(a) + ([c] + MaskOf(b))
    ensures Closed(a + ([c] + b)) <==> Closed(b)
    ensures Overruns(a + ([c] + b)) <==> Overruns(b)
  {
    hide Closed, MaskOf, Overruns;
    MaskConcat(a, [c] + b);
    ClosedConcat(a, [c] + b);
    MaskOfSeparator(c, b);
  }

  /** A character the mask kept cuts the text, and its mask, in two that are lexed apart. */
  lemma CutAtCode(s: string, k: nat)
    requires k < |s| && MaskOf(s)[k] in "(),"
    ensures s[k] == MaskOf(s)[k] && Closed(s[..k])
    ensures MaskOf(s[..k]) == MaskOf(s)[..k] && MaskOf(s[k + 1..]) == MaskOf(s)[k + 1..]
    ensures Closed(s[k + 1..]) <==> Closed(s)
    ensures Overruns(s[k + 1..]) <==> Overruns(s)
  {
    hide FirstToken, Painted, Closed, MaskOf, Overruns;
    FinishedBefore(s, k);
    CutText(s, k);
    MaskAround(s[..k], s[k], s[k + 1..]);
    AroundOne(MaskOf(s[..k]), s[k], MaskOf(s[k + 1..]));
  }

  lemma CutText(s: string, k: nat)
    requires k < |s|
    ensures s == s[..k] + ([s[k]] + s[k + 1..])
  {}

  lemma AroundOne(a: string, c: char, b: string)
    ensures var s := a + ([c] + b); s[|a|] == c && s[..|a|] == a && s[|a| + 1..] == b
  {}

  lemma {:induction false} SpacesInFront(w: string, b: string)
    requires forall c <- w :: IsSpace(c)
    ensures MaskOf(w + b) == w + MaskOf(b)
    ensures Closed(w + b) <==> Closed(b)
    decreases |w|
  {
    hide MaskOf, Closed, Overruns, FirstToken;
    if w == "" {
      assert w + b == b && w + MaskOf(b) == MaskOf(b);
    } else {
      assert w + b == [w[0]] + (w[1..] + b);
      MaskOfSeparator(w[0], w[1..] + b);
      SpacesInFront(w[1..], b);
      assert [w[0]] + (w[1..] + MaskOf(b)) == w + MaskOf(b);
    }
  }

  // --------------------------------------------------------- counting brackets

  /** How a character changes the depth, counting every kind of bracket or parentheses alone. */
  function Step(c: char, all: bool): int {
    if c == '(' || (all && c in "[{") then 1 else if c == ')' || (all && c in "]}") then -1 else 0
  }

  function Depth(m: string, all: bool): int {
    if m == "" then 0 else Step(m[0], all) + Depth(m[1..], all)
  }

  lemma {:induction false} DepthConcat(a: string, b: string, all: bool)
    ensures Depth(a + b, all) == Depth(a, all) + Depth(b, all)
    decreases |a|
  {
    if a == "" {
      assert a + b == b;
    } else {
      assert (a + b)[1..] == a[1..] + b;
      DepthConcat(a[1..], b, all);
    }
  }

  /** No prefix closes the parenthesis that was open at depth d. */
  predicate Stays(m: string, d: int) {
    m == "" || (d + Step(m[0], false) >= 1 && Stays(m[1..], d + Step(m[0], false)))
  }

  lemma {:induction false} StaysConcat(a: string, b: string, d: int)
    ensures Stays(a + b, d) <==> Stays(a, d) && Stays(b, d + Depth(a, false))
    decreases |a|
  {
    if a == "" {
      assert a + b == b;
    } else {
      assert (a + b)[1..] == a[1..] + b;
      StaysConcat(a[1..], b, d + Step(a[0], false));
    }
  }

  lemma {:induction false} StaysDeeper(m: string, d: int, deeper: int)
    requires Stays(m, d) && d <= deeper
    ensures Stays(m, deeper)
    decreases |m|
  {
    if m != "" { StaysDeeper(m[1..], d + Step(m[0], false), deeper + Step(m[0], false)); }
  }

  /** The parentheses of m match each other. */
  predicate Nested(m: string) { Stays(m, 1) && Depth(m, false) == 0 }

  lemma NestedConcat(a: string, b: string)
    requires Nested(a) && Nested(b)
    ensures Nested(a + b)
  {
    hide Stays, Depth;
    StaysConcat(a, b, 1);
    DepthConcat(a, b, false);
  }

  lemma {:induction false} NestedPlain(m: string)
    requires '(' !in m && ')' !in m
    ensures Nested(m)
    decreases |m|
  {
    if m != "" { NestedPlain(m[1..]); }
  }

  /** Matching parentheses may be put anywhere among matching ones. */
  lemma NestedInsert(x: string, v: string, y: string)
    requires Nested(x + y) && Nested(v)
    ensures Nested(x + (v + y))
  {
    hide Stays, Depth;
    var d := 1 + Depth(x, false);
    StaysConcat(x, y, 1);
    DepthConcat(x, y, false);
    StaysConcat(x, v + y, 1);
    DepthConcat(x, v + y, false);
    StaysConcat(v, y, d);
    DepthConcat(v, y, false);
    AtLeastOne(x);
    StaysDeeper(v, 1, d);
  }

  lemma {:induction false} EndsAtLeastOne(m: string, d: int)
    requires Stays(m, d) && d >= 1
    ensures d + Depth(m, false) >= 1
    decreases |m|
  {
    if m != "" { EndsAtLeastOne(m[1..], d + Step(m[0], false)); }
  }

  lemma AtLeastOne(m: string)
    requires Stays(m, 1)
    ensures 1 + Depth(m, false) >= 1
  {
    EndsAtLeastOne(m, 1);
  }

  /** Where the parenthesis opened before m closes, or the end. */
  function CloseAt(m: string, d: int): (k: nat)
    ensures k <= |m|
  {
    if m == "" then 0
    else if d + Step(m[0], false) == 0 then 0
    else 1 + CloseAt(m[1..], d + Step(m[0], false))
  }

  /** What is before the closing parenthesis is nested, and it is a closing parenthesis. */
  lemma {:induction false} BeforeClose(m: string, d: int)
    requires d >= 1 && CloseAt(m, d) < |m|
    ensures var k := CloseAt(m, d); m[k] == ')' && Stays(m[..k], d) && d + Depth(m[..k], false) == 1
    decreases |m|
  {
    if d + Step(m[0], false) != 0 {
      var k := CloseAt(m, d);
      BeforeClose(m[1..], d + Step(m[0], false));
      assert m[..k][1..] == m[1..][..k - 1];
    }
  }

  lemma {:induction false} CloseAfter(m: string, d: int, r: string)
    requires Stays(m, d) && d + Depth(m, false) == 1
    ensures CloseAt(m + (")" + r), d) == |m|
    decreases |m|
  {
    if m == "" {
      assert m + (")" + r) == ")" + r;
    } else {
      assert (m + (")" + r))[1..] == m[1..] + (")" + r);
      CloseAfter(m[1..], d + Step(m[0], false), r);
    }
  }

  // -------------------------------------------------------------- the arguments

  /** The first comma outside every bracket, or the end. */
  function FirstComma(m: string, d: int): (k: nat)
    ensures k <= |m| && (k < |m| ==> m[k] == ',')
  {
    if m == "" || (m[0] == ',' && d == 0) then 0 else 1 + FirstComma(m[1..], d + Step(m[0], true))
  }

  lemma {:induction false} BeforeComma(m: string, d: int)
    requires FirstComma(m, d) < |m|
    ensures var k := FirstComma(m, d); FirstComma(m[..k], d) == k && d + Depth(m[..k], true) == 0
    decreases |m|
  {
    if !(m[0] == ',' && d == 0) {
      var k := FirstComma(m, d);
      BeforeComma(m[1..], d + Step(m[0], true));
      assert m[..k][1..] == m[1..][..k - 1];
    }
  }

  lemma {:induction false} CommaAfter(m: string, d: int, r: string)
    requires FirstComma(m, d) == |m| && d + Depth(m, true) == 0
    ensures FirstComma(m + ("," + r), d) == |m|
    decreases |m|
  {
    if m == "" {
      assert m + ("," + r) == "," + r;
    } else {
      assert (m + ("," + r))[1..] == m[1..] + ("," + r);
      CommaAfter(m[1..], d + Step(m[0], true), r);
    }
  }

  /** The argument text cut at its top-level commas. */
  function Split(text: string, mask: string): (args: seq<string>)
    requires |text| == |mask|
    ensures args != []
    decreases |text|
  {
    var k := FirstComma(mask, 0);
    if k == |mask| then [text] else [text[..k]] + Split(text[k + 1..], mask[k + 1..])
  }

  function Join(args: seq<string>): string {
    if args == [] then "" else if |args| == 1 then args[0] else args[0] + ("," + Join(args[1..]))
  }

  /** Joining what was split gives the text back. */
  lemma {:induction false} JoinOfSplit(text: string, mask: string)
    requires |text| == |mask| && forall k | 0 <= k < |mask| && mask[k] == ',' :: text[k] == ','
    ensures Join(Split(text, mask)) == text
    decreases |text|
  {
    var k := FirstComma(mask, 0);
    if k == |mask| {
    } else {
      var rest := Split(text[k + 1..], mask[k + 1..]);
      assert Split(text, mask)[1..] == rest;
      JoinOfSplit(text[k + 1..], mask[k + 1..]);
      AroundComma(text, k);
    }
  }

  lemma AroundComma(text: string, k: nat)
    requires k < |text| && text[k] == ','
    ensures text == text[..k] + ("," + text[k + 1..])
  {}

  /** An argument as split_args leaves it: lexed on its own, and cut no further. */
  predicate Solid(arg: string) { Closed(arg) && FirstComma(MaskOf(arg), 0) == |arg| }

  /** Its brackets come out even. */
  predicate Flat(arg: string) { Depth(MaskOf(arg), true) == 0 }

  ghost predicate SolidList(args: seq<string>) {
    && args != []
    && (forall k | 0 <= k < |args| :: Solid(args[k]))
    && (forall k | 0 <= k < |args| - 1 :: Flat(args[k]))
  }

  /** The arguments of finished text are each finished, and cut no further. */
  lemma {:induction false} SplitIsSolid(text: string)
    requires Closed(text)
    ensures SolidList(Split(text, MaskOf(text)))
    decreases |text|
  {
    hide Closed, MaskOf, FirstComma, Depth, Overruns;
    var m := MaskOf(text);
    var k := FirstComma(m, 0);
    if k < |m| {
      CutAtCode(text, k);
      BeforeComma(m, 0);
      SplitIsSolid(text[k + 1..]);
    }
  }

  /** Solid arguments joined by commas are split back as they were. */
  lemma {:induction false} SplitOfJoin(args: seq<string>)
    requires SolidList(args)
    ensures Closed(Join(args)) && Split(Join(args), MaskOf(Join(args))) == args
    decreases |args|
  {
    hide Closed, MaskOf, FirstComma, Depth, Overruns, Split;
    if |args| > 1 {
      var a, rest := args[0], Join(args[1..]);
      assert Solid(args[0]) && Flat(args[0]);
      SolidTail(args);
      SplitOfJoin(args[1..]);
      MaskAround(a, ',', rest);
      SplitAround(a, MaskOf(a), rest, MaskOf(rest));
    } else {
      assert Solid(args[0]) && args == [args[0]];
      SplitNone(args[0]);
    }
  }

  lemma SplitNone(arg: string)
    requires Solid(arg)
    ensures Split(arg, MaskOf(arg)) == [arg]
  {}

  lemma SplitAround(a: string, ma: string, rest: string, mrest: string)
    requires |a| == |ma| && |rest| == |mrest| && FirstComma(ma, 0) == |ma| && Depth(ma, true) == 0
    ensures Split(a + ("," + rest), ma + ("," + mrest)) == [a] + Split(rest, mrest)
  {
    hide FirstComma, Depth;
    CommaAfter(ma, 0, mrest);
    AroundOne(a, ',', rest);
    AroundOne(ma, ',', mrest);
  }

  lemma SolidTail(args: seq<string>)
    requires SolidList(args) && |args| > 1
    ensures SolidList(args[1..])
  {
    hide Solid, Flat;
  }

  // -------------------------------------------------------------------- the edit

  function LeadOf(arg: string): (lead: string)
    ensures |lead| <= |arg| && lead == arg[..|lead|] && forall c <- lead :: IsSpace(c)
    ensures |lead| < |arg| ==> !IsSpace(arg[|lead|])
  {
    if arg == "" || !IsSpace(arg[0]) then "" else [arg[0]] + LeadOf(arg[1..])
  }

  function Stripped(arg: string): string { arg[|LeadOf(arg)|..] }

  /** The value, aligned as the argument beside it is. */
  function NewArg(beside: string, value: string): string {
    (if '\n' in LeadOf(beside) then LeadOf(beside) else " ") + value
  }

  predicate EmptyCall(args: seq<string>) { |args| == 1 && Stripped(args[0]) == "" }

  predicate Editable(args: seq<string>, index: nat) {
    args != [] && !EmptyCall(args) && index <= |args|
  }

  function Inserted(args: seq<string>, index: nat, value: string): (edited: seq<string>)
    requires Editable(args, index)
    ensures |edited| == |args| + 1
  {
    if index == |args| then args + [NewArg(args[index - 1], value)]
    else if index == 0 then [value, " " + Stripped(args[0])] + args[1..]
    else args[..index] + [NewArg(args[index], value)] + args[index..]
  }

  /** A value that is one argument wherever it is put. */
  predicate OneArgument(value: string) {
    Solid(value) && Flat(value) && Nested(MaskOf(value))
  }

  lemma {:induction false} SpacesCount(w: string, m: string)
    requires forall c <- w :: IsSpace(c)
    ensures FirstComma(w + m, 0) == |w| + FirstComma(m, 0)
    ensures Depth(w + m, true) == Depth(m, true)
    ensures Nested(w + m) <==> Nested(m)
    decreases |w|
  {
    if w == "" {
      assert w + m == m;
    } else {
      var c := w[0];
      assert IsSpace(c) && Step(c, true) == 0 && Step(c, false) == 0 && c != ',';
      assert (w + m)[1..] == w[1..] + m && (w + m)[0] == c;
      SpacesCount(w[1..], m);
    }
  }

  /** White space in front changes nothing about an argument. */
  lemma Spaced(w: string, arg: string)
    requires forall c <- w :: IsSpace(c)
    ensures Solid(w + arg) <==> Solid(arg)
    ensures Flat(w + arg) <==> Flat(arg)
    ensures Nested(MaskOf(w + arg)) <==> Nested(MaskOf(arg))
  {
    hide Closed, MaskOf, FirstComma, Depth, Nested, IsSpace;
    SpacesInFront(w, arg);
    SpacesCount(w, MaskOf(arg));
  }

  lemma NewArgIsOne(beside: string, value: string)
    requires OneArgument(value)
    ensures OneArgument(NewArg(beside, value))
  {
    hide Solid, Flat, Nested;
    Spaced(if '\n' in LeadOf(beside) then LeadOf(beside) else " ", value);
  }

  lemma StrippedIsSame(arg: string)
    ensures Solid(" " + Stripped(arg)) <==> Solid(arg)
    ensures Flat(" " + Stripped(arg)) <==> Flat(arg)
  {
    hide Solid, Flat, Nested;
    assert LeadOf(arg) + Stripped(arg) == arg;
    Spaced(LeadOf(arg), Stripped(arg));
    Spaced(" ", Stripped(arg));
  }

  /** The edited arguments stand on their own as the old ones did. */
  lemma InsertedIsSolid(args: seq<string>, index: nat, value: string)
    requires SolidList(args) && Editable(args, index) && OneArgument(value)
    requires index == |args| ==> Flat(args[index - 1])
    ensures SolidList(Inserted(args, index, value))
  {
    hide Solid, Flat, Nested, NewArg, EmptyCall;
    if index == 0 {
      StrippedIsSame(args[0]);
    } else {
      NewArgIsOne(args[if index == |args| then index - 1 else index], value);
    }
  }

  lemma {:induction false} JoinConcat(xs: seq<string>, ys: seq<string>)
    requires xs != [] && ys != []
    ensures Join(xs + ys) == Join(xs) + ("," + Join(ys))
    decreases |xs|
  {
    assert (xs + ys)[1..] == xs[1..] + ys;
    if |xs| > 1 { JoinConcat(xs[1..], ys); }
  }

  /** The text between the call's parentheses still has matching ones. */
  lemma InsertedIsNested(args: seq<string>, index: nat, value: string)
    requires SolidList(args) && Editable(args, index) && OneArgument(value)
    requires index == |args| ==> Flat(args[index - 1])
    requires Nested(MaskOf(Join(args)))
    ensures Nested(MaskOf(Join(Inserted(args, index, value))))
  {
    if index == 0 { NestedFirst(args, value); } else { NestedLater(args, index, value); }
  }

  lemma CommaNested(m: string)
    requires Nested(m)
    ensures Nested("," + m)
  {
    NestedPlain(",");
    NestedConcat(",", m);
  }

  /** The white space before the first argument may become one space. */
  lemma SpacedFirst(args: seq<string>)
    requires args != []
    ensures Nested(MaskOf(Join([" " + Stripped(args[0])] + args[1..]))) <==> Nested(MaskOf(Join(args)))
  {
    hide Nested, MaskOf, LeadOf, Join, Solid, Flat;
    var lead, core := LeadOf(args[0]), [Stripped(args[0])] + args[1..];
    assert lead + Stripped(args[0]) == args[0] && args == [args[0]] + args[1..];
    JoinBehind(lead, Stripped(args[0]), args[1..]);
    JoinBehind(" ", Stripped(args[0]), args[1..]);
    Spaced(lead, Join(core));
    Spaced(" ", Join(core));
  }

  lemma JoinBehind(lead: string, first: string, rest: seq<string>)
    ensures Join([lead + first] + rest) == lead + Join([first] + rest)
  {
    assert ([lead + first] + rest)[1..] == rest == ([first] + rest)[1..];
  }

  lemma NestedFirst(args: seq<string>, value: string)
    requires SolidList(args) && Editable(args, 0) && OneArgument(value) && Nested(MaskOf(Join(args)))
    ensures Nested(MaskOf(Join(Inserted(args, 0, value))))
  {
    hide Closed, Nested, EmptyCall, MaskOf, Flat, LeadOf, Stripped, Join, Solid;
    var spaced := [" " + Stripped(args[0])] + args[1..];
    SpacedFirst(args);
    assert Inserted(args, 0, value) == [value] + spaced;
    JoinConcat([value], spaced);
    JoinOne(value);
    SolidIsClosed(value);
    MaskAround(value, ',', Join(spaced));
    CommaNested(MaskOf(Join(spaced)));
    NestedConcat(MaskOf(value), "," + MaskOf(Join(spaced)));
  }

  lemma NestedLater(args: seq<string>, index: nat, value: string)
    requires SolidList(args) && Editable(args, index) && OneArgument(value) && index > 0
    requires Nested(MaskOf(Join(args)))
    ensures Nested(MaskOf(Join(Inserted(args, index, value))))
  {
    hide Solid, Flat, Nested, NewArg, EmptyCall, MaskOf, Join;
    var added := NewArg(args[if index == |args| then index - 1 else index], value);
    NewArgIsOne(args[if index == |args| then index - 1 else index], value);
    FinishedArgs(args, index);
    if index == |args| {
      assert args[..index] == args;
      NestedAfter(args, added);
    } else {
      assert args == args[..index] + args[index..];
      NestedBetween(args[..index], added, args[index..]);
      assert args[..index] + [added] + args[index..] == args[..index] + ([added] + args[index..]);
    }
  }

  lemma NestedAfter(args: seq<string>, added: string)
    requires args != [] && Closed(Join(args)) && OneArgument(added) && Nested(MaskOf(Join(args)))
    ensures Nested(MaskOf(Join(args + [added])))
  {
    hide Closed, Nested, MaskOf, Solid, Flat;
    JoinConcat(args, [added]);
    MaskAround(Join(args), ',', added);
    CommaNested(MaskOf(added));
    NestedConcat(MaskOf(Join(args)), "," + MaskOf(added));
  }

  lemma NestedBetween(before: seq<string>, added: string, after: seq<string>)
    requires before != [] && after != [] && Closed(Join(before)) && OneArgument(added)
    requires Nested(MaskOf(Join(before + after)))
    ensures Nested(MaskOf(Join(before + ([added] + after))))
  {
    hide Closed, Nested, MaskOf, Solid, Flat, Join;
    var p, s := Join(before), Join(after);
    JoinConcat(before, after);
    MaskAround(p, ',', s);
    JoinConcat(before, [added] + after);
    JoinConcat([added], after);
    JoinOne(added);
    CommaNested(MaskOf(added));
    NestedInsert(MaskOf(p), "," + MaskOf(added), "," + MaskOf(s));
    MaskBetween(p, added, s);
  }

  lemma MaskBetween(p: string, added: string, s: string)
    requires Closed(p) && Solid(added)
    ensures MaskOf(p + ("," + (added + ("," + s)))) == MaskOf(p) + (("," + MaskOf(added)) + ("," + MaskOf(s)))
  {
    hide Closed, MaskOf, Solid;
    SolidIsClosed(added);
    MaskAround(p, ',', added + ("," + s));
    MaskAround(added, ',', s);
    Assoc(",", MaskOf(added), "," + MaskOf(s));
  }

  lemma Assoc(a: string, b: string, c: string)
    ensures (a + b) + c == a + (b + c)
  {}

  lemma JoinOne(arg: string)
    ensures Join([arg]) == arg
  {}

  lemma SolidIsClosed(arg: string)
    requires Solid(arg)
    ensures Closed(arg)
  {}

  lemma FinishedArgs(args: seq<string>, index: nat)
    requires SolidList(args) && 0 < index <= |args|
    ensures Closed(Join(args[..index]))
  {
    SplitOfJoin(args[..index]);
  }

  // --------------------------------------------------------------- finding calls

  function SkipSpaces(m: string, p: nat): (r: nat)
    requires p <= |m|
    ensures p <= r <= |m| && forall k | p <= k < r :: IsSpace(m[k])
    ensures r < |m| ==> !IsSpace(m[r])
    decreases |m| - p
  {
    if p < |m| && IsSpace(m[p]) then SkipSpaces(m, p + 1) else p
  }

  /** Just past the opening parenthesis of a call written at p, or 0 when none is. */
  function MatchEnd(m: string, p: nat, func: string): (e: nat)
    requires p <= |m|
    ensures e != 0 ==> p < e <= |m| && m[e - 1] == '('
  {
    if p + |func| <= |m| && m[p..p + |func|] == func then
      var w := SkipSpaces(m, p + |func|);
      if w < |m| && m[w] == '(' then w + 1 else 0
    else 0
  }

  /** The leftmost place from p on where a call is written, or the end. */
  function FindMatch(m: string, p: nat, func: string): (s: nat)
    requires p <= |m|
    ensures p <= s <= |m| && (s < |m| ==> MatchEnd(m, s, func) != 0)
    ensures forall q | p <= q < s :: MatchEnd(m, q, func) == 0
    decreases |m| - p
  {
    if p == |m| || MatchEnd(m, p, func) != 0 then p else FindMatch(m, p + 1, func)
  }

  /** Whether a call is written at q is decided before the first parenthesis. */
  lemma MatchEndLocal(m: string, n: string, q: nat, e: nat, func: string)
    requires q < e <= |m| && e <= |n| && m[..e] == n[..e] && m[e - 1] == '(' && '(' !in func
    requires MatchEnd(n, q, func) != 0
    ensures MatchEnd(m, q, func) == MatchEnd(n, q, func)
  {
    var f := MatchEnd(n, q, func);
    assert n[e - 1] == n[..e][e - 1] == '(';
    forall k | q <= k < f - 1 ensures n[k] != '(' {
      if k < q + |func| { assert n[q..q + |func|][k - q] == func[k - q]; }
    }
    assert f <= e;
    forall k | q <= k < f ensures m[k] == n[k] { assert m[..e][k] == n[..e][k]; }
    assert m[q..q + |func|] == n[q..q + |func|];
    assert SkipSpaces(m, q + |func|) == f - 1;
  }

  lemma SamePrefix(m: string, n: string, e: nat)
    requires 0 < e <= |m| && e <= |n| && m[..e] == n[..e]
    ensures n[e - 1] == m[e - 1] && n[..e] == m[..e]
  {
    assert n[..e][e - 1] == m[..e][e - 1];
  }

  lemma MatchLocal(m: string, n: string, func: string)
    requires FindMatch(m, 0, func) < |m| && '(' !in func
    requires var e := MatchEnd(m, FindMatch(m, 0, func), func); e <= |n| && m[..e] == n[..e]
    ensures FindMatch(n, 0, func) == FindMatch(m, 0, func) < |n|
    ensures MatchEnd(n, FindMatch(m, 0, func), func) == MatchEnd(m, FindMatch(m, 0, func), func)
  {
    hide MatchEnd, FindMatch;
    var s := FindMatch(m, 0, func);
    var e := MatchEnd(m, s, func);
    SamePrefix(m, n, e);
    MatchEndLocal(n, m, s, e, func);
    var r := FindMatch(n, 0, func);
    if r < s { MatchEndLocal(m, n, r, e, func); }
  }

  predicate InName(c: char) { c == '_' || 'a' <= c <= 'z' || 'A' <= c <= 'Z' || '0' <= c <= '9' }

  // ------------------------------------------------------------ the whole source

  /** A stretch left alone, or one outermost call: everything up to its parenthesis, and its arguments. */
  datatype Piece = Plain(text: string) | Call(head: string, args: seq<string>, closed: bool)

  function Render(p: Piece): string {
    match p
    case Plain(text) => text
    case Call(head, args, _) => head + (Join(args) + ")")
  }

  function RenderAll(ps: seq<Piece>): string {
    if ps == [] then "" else Render(ps[0]) + RenderAll(ps[1..])
  }

  /** What the search comes to next: how far the parenthesis is, and where the call closes. */
  datatype Found = Nothing | NotACall(e: nat) | Closes(e: nat, k: nat) | Unclosed(e: nat)

  function NextCall(mask: string, prev: char, func: string): (found: Found)
    ensures !found.Nothing? ==> 0 < found.e <= |mask| && mask[found.e - 1] == '('
    ensures found.Closes? ==> found.e <= found.k < |mask| && CloseAt(mask[found.e..], 1) == found.k - found.e
  {
    var s := FindMatch(mask, 0, func);
    if s == |mask| then Nothing
    else
      var e := MatchEnd(mask, s, func);
      var k := e + CloseAt(mask[e..], 1);
      if InName(if s == 0 then prev else mask[s - 1]) then NotACall(e)
      else if k < |mask| then Closes(e, k)
      else Unclosed(e)
  }

  /** The source as the rewriter goes through it; `prev` is the mask character before it. */
  function Parse(src: string, mask: string, prev: char, func: string): (ps: seq<Piece>)
    requires |src| == |mask|
    ensures ps != []
    decreases |src|
  {
    match NextCall(mask, prev, func)
    case Nothing => [Plain(src)]
    case NotACall(e) => [Plain(src[..e])] + Parse(src[e..], mask[e..], '(', func)
    case Closes(e, k) => [ClosedCall(src, mask, e, k)] + Parse(src[k + 1..], mask[k + 1..], ')', func)
    case Unclosed(e) => [OpenCall(src, mask, e), Plain("")]
  }

  function ClosedCall(src: string, mask: string, e: nat, k: nat): (call: Piece)
    requires |src| == |mask| && e <= k < |src|
    ensures call.Call? && call.closed
  {
    Call(src[..e], Split(src[e..k], mask[e..k]), true)
  }

  /** Without its parenthesis a call is cut one character before the end. */
  function OpenCall(src: string, mask: string, e: nat): (call: Piece)
    requires |src| == |mask| && e <= |src|
    ensures call.Call? && !call.closed
  {
    var last := if e < |src| then |src| - 1 else e;
    Call(src[..e], Split(src[e..last], mask[e..last]), false)
  }

  function Edit(p: Piece, index: nat, value: string): Piece {
    if p.Call? && Editable(p.args, index) then p.(args := Inserted(p.args, index, value)) else p
  }

  function EditAll(ps: seq<Piece>, index: nat, value: string): (edited: seq<Piece>)
    ensures |edited| == |ps|
  {
    if ps == [] then [] else [Edit(ps[0], index, value)] + EditAll(ps[1..], index, value)
  }

  /** Every call is closed, and one that gets its argument appended ends in even brackets. */
  ghost predicate Balanced(ps: seq<Piece>, index: nat) {
    forall p <- ps | p.Call? ::
      p.closed && p.args != [] && (Editable(p.args, index) && index == |p.args| ==> Flat(p.args[index - 1]))
  }

  lemma CommasAreReal(text: string)
    ensures forall k | 0 <= k < |text| && MaskOf(text)[k] == ',' :: text[k] == ','
  {
    hide MaskOf;
  }

  // What one found call is made of.

  lemma HeadParts(src: string, mask: string, e: nat)
    requires mask == MaskOf(src) && 0 < e <= |src| && mask[e - 1] == '('
    ensures src[e - 1] == '(' && Closed(src[..e - 1]) && MaskOf(src[..e - 1]) == mask[..e - 1]
    ensures MaskOf(src[e..]) == mask[e..] && (Overruns(src[e..]) <==> Overruns(src))
  {
    hide MaskOf, Closed, Overruns;
    CutAtCode(src, e - 1);
  }

  lemma InnerParts(src: string, mask: string, k: nat)
    requires mask == MaskOf(src) && k < |src| && CloseAt(mask, 1) == k
    ensures src[k] == mask[k] == ')' && Closed(src[..k]) && MaskOf(src[..k]) == mask[..k] && Nested(mask[..k])
    ensures MaskOf(src[k + 1..]) == mask[k + 1..] && (Overruns(src[k + 1..]) <==> Overruns(src))
  {
    hide MaskOf, Closed, Overruns;
    BeforeClose(mask, 1);
    CutAtCode(src, k);
  }

  lemma CallParts(src: string, mask: string, e: nat, k: nat)
    requires mask == MaskOf(src) && 0 < e <= k < |src|
    requires mask[e - 1] == '(' && CloseAt(mask[e..], 1) == k - e
    ensures src[e - 1] == '(' && Closed(src[..e - 1]) && MaskOf(src[..e - 1]) == mask[..e - 1]
    ensures src[k] == mask[k] == ')' && Closed(src[e..k]) && MaskOf(src[e..k]) == mask[e..k] && Nested(mask[e..k])
    ensures MaskOf(src[k + 1..]) == mask[k + 1..] && (Overruns(src[k + 1..]) <==> Overruns(src))
  {
    hide MaskOf, Closed, Overruns, Nested, CloseAt;
    HeadParts(src, mask, e);
    InnerParts(src[e..], mask[e..], k - e);
    Ranges(src, e, k);
    Ranges(mask, e, k);
  }

  lemma Ranges(s: string, e: nat, k: nat)
    requires e <= k < |s|
    ensures s[e..][..k - e] == s[e..k] && s[e..][k - e + 1..] == s[k + 1..]
    ensures s == s[..e] + (s[e..k] + ([s[k]] + s[k + 1..]))
  {}

  lemma CallIsItsText(src: string, mask: string, e: nat, k: nat)
    requires mask == MaskOf(src) && 0 < e <= k < |src|
    requires mask[e - 1] == '(' && CloseAt(mask[e..], 1) == k - e
    ensures src == Render(ClosedCall(src, mask, e, k)) + src[k + 1..]
    ensures MaskOf(src[k + 1..]) == mask[k + 1..]
  {
    hide MaskOf, Closed, Overruns, Nested, CloseAt, Split, Join;
    CallParts(src, mask, e, k);
    CommasAreReal(src[e..k]);
    JoinOfSplit(src[e..k], mask[e..k]);
    Ranges(src, e, k);
    Regroup(src[..e], src[e..k], ")", src[k + 1..]);
  }

  lemma Regroup(h: string, i: string, c: string, r: string)
    ensures (h + (i + c)) + r == h + (i + (c + r))
  {}

  lemma RenderFirst(p: Piece, ps: seq<Piece>)
    ensures RenderAll([p] + ps) == Render(p) + RenderAll(ps)
  {
    assert ([p] + ps)[1..] == ps;
  }

  lemma RenderOne(text: string)
    ensures RenderAll([Plain(text)]) == text
  {}

  ghost predicate AllClosed(ps: seq<Piece>) {
    forall p <- ps :: p.Call? ==> p.closed
  }

  lemma ClosedFirst(p: Piece, ps: seq<Piece>)
    ensures AllClosed([p] + ps) <==> (p.Call? ==> p.closed) && AllClosed(ps)
  {
    assert p in [p] + ps;
    forall q <- ps ensures q in [p] + ps {}
  }

  predicate EndsInParen(s: string) { s != "" && s[|s| - 1] == ')' }

  lemma UnclosedCall(src: string, mask: string, e: nat)
    requires mask == MaskOf(src) && 0 < e <= |src| && mask[e - 1] == '('
    ensures Render(OpenCall(src, mask, e)) == src <==> EndsInParen(src)
  {
    hide MaskOf, Split, Join, Closed, Overruns;
    HeadParts(src, mask, e);
    var last := if e < |src| then |src| - 1 else e;
    CommasBetween(src, e, last);
    JoinOfSplit(src[e..last], mask[e..last]);
    LastReplaced(src, e);
  }

  lemma CommasBetween(text: string, e: nat, last: nat)
    requires e <= last <= |text|
    ensures forall k | 0 <= k < last - e && MaskOf(text)[e..last][k] == ',' :: text[e..last][k] == ','
  {
    hide MaskOf;
    CommasAreReal(text);
  }

  lemma LastReplaced(src: string, e: nat)
    requires 0 < e <= |src| && src[e - 1] == '('
    ensures var last := if e < |src| then |src| - 1 else e;
            src[..e] + (src[e..last] + ")") == src <==> EndsInParen(src)
  {
    var last := if e < |src| then |src| - 1 else e;
    var text := src[..e] + (src[e..last] + ")");
    assert text == src[..last] + ")";
    if e < |src| {
      assert src == src[..last] + [src[last]];
      assert text[last] == ')' && text[..last] == src[..last];
    }
  }

  /** Whether going through src with nothing put in gives it back. */
  ghost predicate GivesBack(src: string, ps: seq<Piece>) {
    RenderAll(ps) == src <==> AllClosed(ps) || EndsInParen(src)
  }

  lemma PlainGivesBack(src: string)
    ensures AllClosed([Plain(src)]) && RenderAll([Plain(src)]) == src && GivesBack(src, [Plain(src)])
  {}

  lemma FrontGivesBack(src: string, p: Piece, back: string, rest: seq<Piece>)
    requires src == Render(p) + back && (p.Call? ==> p.closed)
    requires GivesBack(back, rest) && (back == "" ==> AllClosed(rest))
    ensures GivesBack(src, [p] + rest)
  {
    hide RenderAll, AllClosed, Render;
    RenderFirst(p, rest);
    ClosedFirst(p, rest);
    SameBack(Render(p), RenderAll(rest), back);
  }

  lemma SameBack(front: string, a: string, b: string)
    ensures front + a == front + b <==> a == b
  {
    if front + a == front + b {
      assert (front + a)[|front|..] == a && (front + b)[|front|..] == b;
    }
  }

  lemma OpenGivesBack(src: string, mask: string, e: nat)
    requires mask == MaskOf(src) && 0 < e <= |src| && mask[e - 1] == '('
    ensures GivesBack(src, [OpenCall(src, mask, e), Plain("")])
  {
    hide RenderAll, AllClosed, Render, MaskOf;
    var p := OpenCall(src, mask, e);
    UnclosedCall(src, mask, e);
    RenderFirst(p, [Plain("")]);
    RenderOne("");
    ClosedFirst(p, [Plain("")]);
    assert [p] + [Plain("")] == [p, Plain("")];
  }

  lemma NothingIsClosed(src: string, mask: string, prev: char, func: string)
    requires |src| == |mask|
    ensures src == "" ==> AllClosed(Parse(src, mask, prev, func))
  {
    if src == "" { PlainGivesBack(src); }
  }

  /**
    With nothing put in, going through the source gives it back: if every call
    is closed, or the text ends in the parenthesis that the last, unclosed one
    is given. Otherwise its last character is lost to that parenthesis.
   */
  lemma {:induction false} PiecesAreTheSource(src: string, mask: string, prev: char, func: string)
    requires mask == MaskOf(src)
    ensures GivesBack(src, Parse(src, mask, prev, func))
    decreases |src|
  {
    hide MaskOf, NextCall, Closed, Overruns, RenderAll, AllClosed, CloseAt, ClosedCall, OpenCall, EndsInParen, GivesBack;
    match NextCall(mask, prev, func) {
      case Nothing => PlainGivesBack(src);
      case NotACall(e) =>
        HeadParts(src, mask, e);
        PiecesAreTheSource(src[e..], mask[e..], '(', func);
        NothingIsClosed(src[e..], mask[e..], '(', func);
        FrontGivesBack(src, Plain(src[..e]), src[e..], Parse(src[e..], mask[e..], '(', func));
      case Closes(e, k) =>
        CallIsItsText(src, mask, e, k);
        PiecesAreTheSource(src[k + 1..], mask[k + 1..], ')', func);
        NothingIsClosed(src[k + 1..], mask[k + 1..], ')', func);
        FrontGivesBack(src, ClosedCall(src, mask, e, k), src[k + 1..], Parse(src[k + 1..], mask[k + 1..], ')', func));
      case Unclosed(e) => OpenGivesBack(src, mask, e);
    }
  }

  // ------------------------------------------------------ the output, read again

  lemma EditAllFirst(p: Piece, ps: seq<Piece>, index: nat, value: string)
    ensures EditAll([p] + ps, index, value) == [Edit(p, index, value)] + EditAll(ps, index, value)
  {
    assert ([p] + ps)[1..] == ps;
  }

  lemma BalancedFirst(p: Piece, ps: seq<Piece>, index: nat)
    requires Balanced([p] + ps, index)
    ensures Balanced(ps, index) && Balanced([p], index)
  {
    hide Editable, Flat;
    forall q | q in ps || q == p ensures q in [p] + ps {}
  }

  /** The search stops at the same place when nothing before its parenthesis changed. */
  lemma SameHead(m: string, n: string, prev: char, func: string)
    requires !NextCall(m, prev, func).Nothing? && '(' !in func
    requires var e := NextCall(m, prev, func).e; e <= |n| && m[..e] == n[..e]
    ensures NextCall(m, prev, func).NotACall? ==> NextCall(n, prev, func) == NextCall(m, prev, func)
    ensures var e := NextCall(m, prev, func).e;
            !NextCall(m, prev, func).NotACall? && e + CloseAt(n[e..], 1) < |n| ==>
              NextCall(n, prev, func) == Closes(e, e + CloseAt(n[e..], 1))
  {
    hide FindMatch, MatchEnd, CloseAt, InName;
    var s, e := FindMatch(m, 0, func), NextCall(m, prev, func).e;
    MatchLocal(m, n, func);
    if s > 0 {
      assert m[s - 1] == m[..e][s - 1] == n[..e][s - 1] == n[s - 1];
    }
  }

  /** What follows a parenthesis is lexed on its own. */
  lemma AfterHead(src: string, mask: string, e: nat, back: string)
    requires mask == MaskOf(src) && 0 < e <= |src| && mask[e - 1] == '('
    ensures MaskOf(src[..e] + back) == mask[..e] + MaskOf(back)
    ensures Overruns(src[..e] + back) <==> Overruns(back)
  {
    hide MaskOf, Closed, Overruns;
    HeadParts(src, mask, e);
    MaskAround(src[..e - 1], '(', back);
    HeadEnds(src, e, back);
    HeadEnds(mask, e, MaskOf(back));
  }

  lemma HeadEnds(s: string, e: nat, back: string)
    requires 0 < e <= |s| && s[e - 1] == '('
    ensures s[..e - 1] + (['('] + back) == s[..e] + back
  {}

  lemma FrontBack(a: string, b: string)
    ensures (a + b)[..|a|] == a && (a + b)[|a|..] == b
  {}

  lemma SkipAgain(src: string, mask: string, prev: char, func: string, back: string)
    requires mask == MaskOf(src) && NextCall(mask, prev, func).NotACall? && '(' !in func
    ensures var e := NextCall(mask, prev, func).e; var out := src[..e] + back;
            && Parse(out, MaskOf(out), prev, func) == [Plain(src[..e])] + Parse(back, MaskOf(back), '(', func)
            && (Overruns(out) <==> Overruns(back))
  {
    hide MaskOf, NextCall, Overruns;
    var e := NextCall(mask, prev, func).e;
    AfterHead(src, mask, e, back);
    FrontBack(src[..e], back);
    FrontBack(mask[..e], MaskOf(back));
    SameHead(mask, MaskOf(src[..e] + back), prev, func);
  }

  lemma CallMask(src: string, mask: string, e: nat, inner: string, back: string)
    requires mask == MaskOf(src) && 0 < e <= |src| && mask[e - 1] == '(' && Closed(inner)
    ensures var out := src[..e] + (inner + (")" + back));
            && MaskOf(out) == mask[..e] + (MaskOf(inner) + (")" + MaskOf(back)))
            && (Overruns(out) <==> Overruns(back))
  {
    hide MaskOf, Overruns, Closed;
    MaskAround(inner, ')', back);
    AfterHead(src, mask, e, inner + (")" + back));
  }

  /** A call whose arguments are solid and nested is found again, with those arguments. */
  lemma CallAgain(src: string, mask: string, prev: char, func: string, args: seq<string>, back: string)
    requires mask == MaskOf(src) && NextCall(mask, prev, func).Closes? && '(' !in func
    requires SolidList(args) && Nested(MaskOf(Join(args)))
    ensures var call := Call(src[..NextCall(mask, prev, func).e], args, true); var out := Render(call) + back;
            && Parse(out, MaskOf(out), prev, func) == [call] + Parse(back, MaskOf(back), ')', func)
            && (Overruns(out) <==> Overruns(back))
  {
    hide MaskOf, NextCall, Overruns, Nested, SolidList, Join, Closed, Split;
    var e := NextCall(mask, prev, func).e;
    var inner := Join(args);
    SplitOfJoin(args);
    CallMask(src, mask, e, inner, back);
    Regroup(src[..e], inner, ")", back);
    FoundAgain(mask, prev, func, MaskOf(inner), MaskOf(back));
    ParseAround(src[..e], inner, back, mask[..e], MaskOf(inner), MaskOf(back), prev, func);
  }

  lemma ParseAround(h: string, inner: string, back: string, mh: string, mi: string, mb: string, prev: char, func: string)
    requires |h| == |mh| && |inner| == |mi| && |back| == |mb|
    requires NextCall(mh + (mi + (")" + mb)), prev, func) == Closes(|h|, |h| + |inner|)
    ensures Parse(h + (inner + (")" + back)), mh + (mi + (")" + mb)), prev, func)
         == [Call(h, Split(inner, mi), true)] + Parse(back, mb, ')', func)
  {
    hide NextCall, Split, Parse, MadeOf;
    CallPieces(h, inner, back);
    CallPieces(mh, mi, mb);
    ParsePieces(h + (inner + (")" + back)), mh + (mi + (")" + mb)), prev, func, h, inner, back, mh, mi, mb);
  }

  ghost predicate MadeOf(s: string, h: string, inner: string, back: string) {
    var k := |h| + |inner|;
    |s| == k + 1 + |back| && s[..|h|] == h && s[|h|..k] == inner && s[k + 1..] == back
  }

  lemma ParsePieces(out: string, n: string, prev: char, func: string,
                    h: string, inner: string, back: string, mh: string, mi: string, mb: string)
    requires |h| == |mh| && |inner| == |mi| && |back| == |mb|
    requires MadeOf(out, h, inner, back) && MadeOf(n, mh, mi, mb)
    requires NextCall(n, prev, func) == Closes(|h|, |h| + |inner|)
    ensures Parse(out, n, prev, func) == [Call(h, Split(inner, mi), true)] + Parse(back, mb, ')', func)
  {
    hide NextCall, Split, Parse, MadeOf, ClosedCall;
    var e: nat, k: nat := |h|, |h| + |inner|;
    MadeOfPieces(out, h, inner, back);
    MadeOfPieces(n, mh, mi, mb);
    CallOfPieces(out, n, h, inner, back, mh, mi, mb);
    var rest := out[k + 1..];
    assert rest == back;
    var mrest := n[k + 1..];
    assert mrest == mb;
    assert Parse(rest, mrest, ')', func) == Parse(back, mb, ')', func);
    ParseCloses(out, n, prev, func, e, k);
  }

  lemma MadeOfPieces(s: string, h: string, inner: string, back: string)
    requires MadeOf(s, h, inner, back)
    ensures var k := |h| + |inner|; |s| == k + 1 + |back| && s[k + 1..] == back
  {}

  lemma CallOfPieces(out: string, n: string, h: string, inner: string, back: string, mh: string, mi: string, mb: string)
    requires |h| == |mh| && |inner| == |mi| && |back| == |mb|
    requires MadeOf(out, h, inner, back) && MadeOf(n, mh, mi, mb)
    ensures ClosedCall(out, n, |h|, |h| + |inner|) == Call(h, Split(inner, mi), true)
  {
    hide Split;
    var e: nat, k: nat := |h|, |h| + |inner|;
    assert out[..e] == h && out[e..k] == inner && n[e..k] == mi;
  }

  lemma ParseCloses(out: string, n: string, prev: char, func: string, e: nat, k: nat)
    requires |out| == |n| && NextCall(n, prev, func) == Closes(e, k)
    ensures Parse(out, n, prev, func) == [ClosedCall(out, n, e, k)] + Parse(out[k + 1..], n[k + 1..], ')', func)
  {
    hide NextCall, Split, ClosedCall;
  }

  lemma FoundAgain(m: string, prev: char, func: string, inner: string, back: string)
    requires NextCall(m, prev, func).Closes? && '(' !in func && Nested(inner)
    ensures var e := NextCall(m, prev, func).e;
            NextCall(m[..e] + (inner + (")" + back)), prev, func) == Closes(e, e + |inner|)
  {
    hide NextCall, Nested, CloseAt;
    var e := NextCall(m, prev, func).e;
    FrontBack(m[..e], inner + (")" + back));
    ClosesAfter(inner, back);
    SameHead(m, m[..e] + (inner + (")" + back)), prev, func);
  }

  lemma ClosesAfter(m: string, r: string)
    requires Nested(m)
    ensures CloseAt(m + (")" + r), 1) == |m|
  {
    CloseAfter(m, 1, r);
  }

  lemma CallPieces(h: string, inner: string, back: string)
    ensures MadeOf(h + (inner + (")" + back)), h, inner, back)
  {}

  /** What the edit leaves between the parentheses of a call. */
  lemma EditedCall(src: string, mask: string, e: nat, k: nat, index: nat, value: string)
    requires mask == MaskOf(src) && 0 < e <= k < |src| && OneArgument(value)
    requires mask[e - 1] == '(' && CloseAt(mask[e..], 1) == k - e
    requires Balanced([ClosedCall(src, mask, e, k)], index)
    ensures var p := Edit(ClosedCall(src, mask, e, k), index, value);
            p == Call(src[..e], p.args, true) && SolidList(p.args) && Nested(MaskOf(Join(p.args)))
  {
    hide MaskOf, Closed, Overruns, Nested, CloseAt, Split, Join, Solid, Flat, EmptyCall, Inserted;
    CallParts(src, mask, e, k);
    var call := ClosedCall(src, mask, e, k);
    assert call in [call];
    CommasAreReal(src[e..k]);
    JoinOfSplit(src[e..k], mask[e..k]);
    SplitIsSolid(src[e..k]);
    if Editable(call.args, index) {
      InsertedIsSolid(call.args, index, value);
      InsertedIsNested(call.args, index, value);
    }
  }

  /**
    Read again, the output has the same pieces as the source, each editable call
    with its edited arguments: no literal, comment, bracket or other call was
    disturbed by what was put in.
   */
  lemma {:induction false} OutputReadsBack(src: string, mask: string, prev: char, func: string, index: nat, value: string)
    requires mask == MaskOf(src) && '(' !in func && OneArgument(value)
    requires Balanced(Parse(src, mask, prev, func), index)
    ensures var edited := EditAll(Parse(src, mask, prev, func), index, value); var out := RenderAll(edited);
            Parse(out, MaskOf(out), prev, func) == edited && (Overruns(out) <==> Overruns(src))
    decreases |src|
  {
    hide MaskOf, NextCall, Overruns, Nested, SolidList, Join, Closed, Split, CloseAt, Balanced, EditAll, RenderAll, OneArgument;
    match NextCall(mask, prev, func) {
      case Nothing =>
        EditAllFirst(Plain(src), [], index, value);
        NothingToEdit(index, value);
        assert [Plain(src)] + [] == [Plain(src)];
        RenderOne(src);
      case NotACall(e) =>
        var front, rest := Plain(src[..e]), Parse(src[e..], mask[e..], '(', func);
        HeadParts(src, mask, e);
        BalancedFirst(front, rest, index);
        OutputReadsBack(src[e..], mask[e..], '(', func, index, value);
        EditAllFirst(front, rest, index, value);
        RenderFirst(front, EditAll(rest, index, value));
        SkipAgain(src, mask, prev, func, RenderAll(EditAll(rest, index, value)));
      case Closes(e, k) =>
        var front, rest := ClosedCall(src, mask, e, k), Parse(src[k + 1..], mask[k + 1..], ')', func);
        CallParts(src, mask, e, k);
        BalancedFirst(front, rest, index);
        OutputReadsBack(src[k + 1..], mask[k + 1..], ')', func, index, value);
        EditAllFirst(front, rest, index, value);
        EditedCall(src, mask, e, k, index, value);
        var edited := Edit(front, index, value);
        RenderFirst(edited, EditAll(rest, index, value));
        CallAgain(src, mask, prev, func, edited.args, RenderAll(EditAll(rest, index, value)));
      case Unclosed(e) =>
        OpenIsUnbalanced(OpenCall(src, mask, e), [Plain("")], index);
    }
  }

  lemma NothingToEdit(index: nat, value: string)
    ensures EditAll([], index, value) == []
  {}

  lemma OpenIsUnbalanced(p: Piece, ps: seq<Piece>, index: nat)
    requires p.Call? && !p.closed
    ensures !Balanced([p] + ps, index) && [p] + [Plain("")] == [p, Plain("")]
  {
    assert p in [p] + ps;
  }

  // -------------------------------------------------------------- the tool's loops

  /** Where the literals and comments from position i on start and end. */
  function SpansFrom(text: string, i: nat): seq<(nat, nat)>
    decreases |text| - i
  {
    if i >= |text| then []
    else
      var t := FirstToken(text[i..]);
      (if t.span then [(i, i + t.length)] else []) + SpansFrom(text, i + t.length)
  }

  predicate Covered(k: nat, spans: seq<(nat, nat)>) {
    exists j :: 0 <= j < |spans| && spans[j].0 <= k < spans[j].1
  }

  predicate PastEnd(spans: seq<(nat, nat)>, n: nat) {
    exists j :: 0 <= j < |spans| && n < spans[j].1
  }

  lemma CoveredFirst(k: nat, first: seq<(nat, nat)>, rest: seq<(nat, nat)>)
    ensures Covered(k, first + rest) <==> Covered(k, first) || Covered(k, rest)
    ensures PastEnd(first + rest, k) <==> PastEnd(first, k) || PastEnd(rest, k)
  {
    var all := first + rest;
    if Covered(k, rest) {
      var j :| 0 <= j < |rest| && rest[j].0 <= k < rest[j].1;
      assert all[|first| + j] == rest[j];
    }
    if PastEnd(rest, k) {
      var j :| 0 <= j < |rest| && k < rest[j].1;
      assert all[|first| + j] == rest[j];
    }
    if Covered(k, first) {
      var j :| 0 <= j < |first| && first[j].0 <= k < first[j].1;
      assert all[j] == first[j];
    }
    if PastEnd(first, k) {
      var j :| 0 <= j < |first| && k < first[j].1;
      assert all[j] == first[j];
    }
  }

  lemma {:induction false} SpansStart(text: string, p: nat)
    ensures forall j | 0 <= j < |SpansFrom(text, p)| :: p <= SpansFrom(text, p)[j].0 < SpansFrom(text, p)[j].1
    decreases |text| - p
  {
    hide FirstToken;
    if p < |text| { SpansStart(text, p + FirstToken(text[p..]).length); }
  }

  /** The mask blanks exactly what lies in a span. */
  lemma {:induction false} MaskIsSpans(text: string, p: nat, k: nat)
    requires p <= k < |text|
    ensures MaskOf(text[p..])[k - p] == if Covered(k, SpansFrom(text, p)) then Blanked(text[k]) else text[k]
    decreases |text| - p
  {
    hide FirstToken, MaskOf, Covered, PastEnd, Painted, SpansFrom;
    var t := FirstToken(text[p..]);
    var rest := SpansFrom(text, p + t.length);
    var first := SpansStep(text, p);
    CoveredFirst(k, first, rest);
    CoveredOne(k, first);
    if k < p + t.length {
      SpansStart(text, p + t.length);
      NotCovered(k, rest, p + t.length);
      FrontOfMask(text[p..], k - p);
    } else {
      MaskIsSpans(text, p + t.length, k);
      RestOfMask(text, p, k);
    }
  }

  lemma RestOfMask(text: string, p: nat, k: nat)
    requires p <= k < |text| && p + FirstToken(text[p..]).length <= k
    ensures var n := FirstToken(text[p..]).length; MaskOf(text[p..])[k - p] == MaskOf(text[p + n..])[k - p - n]
  {
    hide FirstToken, MaskOf, Painted;
    Unfold(text[p..]);
    Drops(text, p, FirstToken(text[p..]).length);
  }

  lemma Drops(text: string, p: nat, n: nat)
    requires p + n <= |text|
    ensures text[p..][n..] == text[p + n..]
  {}

  lemma SpansStep(text: string, p: nat) returns (first: seq<(nat, nat)>)
    requires p < |text|
    ensures var t := FirstToken(text[p..]);
            first == (if t.span then [(p, p + t.length)] else []) && SpansFrom(text, p) == first + SpansFrom(text, p + t.length)
  {
    hide FirstToken;
    first := if FirstToken(text[p..]).span then [(p, p + FirstToken(text[p..]).length)] else [];
  }

  /** Masking fails exactly when a span reaches past the end. */
  lemma {:induction false} OverrunIsSpan(text: string, p: nat)
    requires p <= |text|
    ensures Overruns(text[p..]) <==> PastEnd(SpansFrom(text, p), |text|)
    decreases |text| - p
  {
    hide FirstToken, MaskOf, Covered, PastEnd, Painted, Overruns;
    if p < |text| {
      var t := FirstToken(text[p..]);
      var rest := SpansFrom(text, p + t.length);
      var first := SpansStep(text, p);
      CoveredFirst(|text|, first, rest);
      CoveredOne(|text|, first);
      if p + t.length <= |text| {
        OverrunIsSpan(text, p + t.length);
        Unfold(text[p..]);
        Drops(text, p, t.length);
      } else {
        NoSpans(rest, |text|);
        LongOverruns(text[p..]);
      }
    } else {
      NoSpans([], |text|);
      NoOverrun(text[p..]);
    }
  }

  lemma LongOverruns(s: string)
    requires s != "" && FirstToken(s).length > |s|
    ensures Overruns(s)
  {}

  lemma NoOverrun(s: string)
    requires s == ""
    ensures !Overruns(s)
  {}

  lemma NoSpans(spans: seq<(nat, nat)>, n: nat)
    requires spans == []
    ensures !PastEnd(spans, n)
  {}

  lemma CoveredOne(k: nat, spans: seq<(nat, nat)>)
    requires |spans| <= 1
    ensures Covered(k, spans) <==> |spans| == 1 && spans[0].0 <= k < spans[0].1
    ensures PastEnd(spans, k) <==> |spans| == 1 && k < spans[0].1
  {}

  lemma NotCovered(k: nat, spans: seq<(nat, nat)>, from: nat)
    requires k < from && forall j | 0 <= j < |spans| :: spans[j].0 >= from
    ensures !Covered(k, spans)
  {}

  /** Lines 58-70: past the literal whose opening quote is at start. */
  method PastLiteral(text: string, start: nat) returns (i: nat)
    requires start < |text| && IsQuote(text[start])
    ensures i == start + FirstToken(text[start..]).length
  {
    var quote, n := text[start], |text|;
    i := start + 1;
    ghost var whole := InLiteral(text[start..][1..], quote).length;
    assert text[start..][1..] == text[i..];
    while i < n
      invariant start < i <= n + 1
      invariant i <= n ==> i - start - 1 + InLiteral(text[i..], quote).length == whole
      invariant i == n + 1 ==> i - start - 1 == whole
    {
      if text[i] == '\\' {
        if i + 2 <= n { assert text[i..][2..] == text[i + 2..]; }
        i := i + 2;
        continue;
      }
      if text[i] == quote {
        i := i + 1;
        return;
      }
      assert text[i..][1..] == text[i + 1..];
      i := i + 1;
    }
  }

  /** Lines 71-76. */
  method PastLineComment(text: string, start: nat) returns (i: nat)
    requires start < |text| && OpensLine(text[start..])
    ensures i == start + FirstToken(text[start..]).length
  {
    i := start;
    while i < |text| && text[i] != '\n'
      invariant start <= i <= |text|
      invariant i - start + InLine(text[i..]).length == InLine(text[start..]).length
    {
      assert text[i..][1..] == text[i + 1..];
      i := i + 1;
    }
  }

  /** Lines 77-84. */
  method PastBlockComment(text: string, start: nat) returns (i: nat)
    requires start < |text| && OpensBlock(text[start..])
    ensures i == start + FirstToken(text[start..]).length
  {
    var n := |text|;
    i := start + 2;
    assert text[start..][2..] == text[i..];
    while i + 1 < n && !(text[i] == '*' && text[i + 1] == '/')
      invariant start + 2 <= i <= n
      invariant i - start - 2 + InBlock(text[i..]).length == InBlock(text[start..][2..]).length
    {
      assert text[i..][1..] == text[i + 1..];
      i := i + 1;
    }
    i := if i + 2 < n then i + 2 else n;
  }

  /** The generator _spans, lines 50-85. */
  method Spans(text: string) returns (spans: seq<(nat, nat)>)
    ensures spans == SpansFrom(text, 0)
  {
    hide FirstToken, SpansFrom;
    spans := [];
    var i, n := 0, |text|;
    while i < n
      invariant spans + SpansFrom(text, i) == SpansFrom(text, 0)
    {
      var c, start := text[i], i;
      TokenKind(text[start..]);
      ghost var was := spans;
      ghost var first := SpansStep(text, start);
      if c == '"' || c == '\'' {
        i := PastLiteral(text, start);
        spans := spans + [(start, i)];
      } else if c == '/' && i + 1 < n && text[i + 1] == '/' {
        i := PastLineComment(text, start);
        spans := spans + [(start, i)];
      } else if c == '/' && i + 1 < n && text[i + 1] == '*' {
        i := PastBlockComment(text, start);
        spans := spans + [(start, i)];
      } else {
        i := i + 1;
      }
      SpansAssoc(was, first, SpansFrom(text, i));
    }
    NoneLeft(text, i);
  }

  lemma SpansAssoc(a: seq<(nat, nat)>, b: seq<(nat, nat)>, c: seq<(nat, nat)>)
    ensures (a + b) + c == a + (b + c) && a + [] == a
  {}

  lemma NoneLeft(text: string, i: nat)
    requires i >= |text|
    ensures SpansFrom(text, i) == []
  {}

  lemma TokenKind(s: string)
    requires s != ""
    ensures FirstToken(s).span <==> IsQuote(s[0]) || OpensLine(s) || OpensBlock(s)
  {
    hide InLiteral, InLine, InBlock;
  }

  lemma PastEndAt(spans: seq<(nat, nat)>, j: nat, n: nat)
    requires j < |spans| && n < spans[j].1
    ensures PastEnd(spans, n)
  {}

  /** One more span painted. */
  lemma PaintedOneMore(text: string, spans: seq<(nat, nat)>, j: nat, before: string, out: string)
    requires j < |spans| && |before| == |out| == |text|
    requires forall k :: 0 <= k < |text| ==> before[k] == if Covered(k, spans[..j]) then Blanked(text[k]) else text[k]
    requires forall k :: 0 <= k < |text| ==> out[k] == if spans[j].0 <= k < spans[j].1 then Blanked(text[k]) else before[k]
    ensures forall k :: 0 <= k < |text| ==> out[k] == if Covered(k, spans[..j + 1]) then Blanked(text[k]) else text[k]
    ensures PastEnd(spans[..j + 1], |text|) <==> PastEnd(spans[..j], |text|) || |text| < spans[j].1
  {
    hide Covered, PastEnd, Blanked;
    assert spans[..j + 1] == spans[..j] + [spans[j]];
    forall k: nat ensures Covered(k, spans[..j + 1]) <==> Covered(k, spans[..j]) || spans[j].0 <= k < spans[j].1 {
      CoveredFirst(k, spans[..j], [spans[j]]);
      CoveredOne(k, [spans[j]]);
    }
    CoveredFirst(|text|, spans[..j], [spans[j]]);
    CoveredOne(|text|, [spans[j]]);
  }

  /** A text painted in every span is masked. */
  lemma PaintedIsMasked(text: string, out: string)
    requires |out| == |text| && !PastEnd(SpansFrom(text, 0), |text|)
    requires forall k :: 0 <= k < |text| ==>
               out[k] == if Covered(k, SpansFrom(text, 0)) then Blanked(text[k]) else text[k]
    ensures out == MaskOf(text) && !Overruns(text)
  {
    hide Covered, PastEnd, Blanked, MaskOf, Overruns, SpansFrom;
    assert text[0..] == text;
    forall k: nat | k < |text| ensures out[k] == MaskOf(text)[k] { MaskIsSpans(text, 0, k); }
    OverrunIsSpan(text, 0);
  }

  /** Lines 88-99; a span past the end of the text is an index error. */
  method Mask(text: string) returns (mask: Option<string>)
    ensures mask == if Overruns(text) then None else Some(MaskOf(text))
  {
    hide MaskOf, Overruns, Covered, PastEnd, SpansFrom;
    var spans := Spans(text);
    SpansStart(text, 0);
    var out := text;
    var j := 0;
    NoSpans(spans[..0], |text|);
    NoneCovered(spans[..0]);
    while j < |spans|
      invariant 0 <= j <= |spans| && |out| == |text|
      invariant !PastEnd(spans[..j], |text|)
      invariant forall k :: 0 <= k < |text| ==> out[k] == if Covered(k, spans[..j]) then Blanked(text[k]) else text[k]
    {
      var k, end := spans[j].0, spans[j].1;
      ghost var before := out;
      while k < end
        invariant spans[j].0 <= k <= end && |out| == |text|
        invariant k == spans[j].0 || k <= |text|
        invariant forall q :: 0 <= q < |text| ==> out[q] == if spans[j].0 <= q < k then Blanked(text[q]) else before[q]
      {
        if k >= |out| {
          PastEndAt(spans, j, |text|);
          OverrunIsSpan(text, 0);
          assert text[0..] == text;
          return None;
        }
        if out[k] != '\n' {
          out := out[k := ' '];
        }
        k := k + 1;
      }
      PaintedOneMore(text, spans, j, before, out);
      j := j + 1;
    }
    assert spans[..j] == spans;
    PaintedIsMasked(text, out);
    return Some(out);
  }

  lemma NoneCovered(spans: seq<(nat, nat)>)
    requires spans == []
    ensures forall k: nat :: !Covered(k, spans)
  {}

  /** Lines 102-114. */
  method SplitArgs(text: string, mask: string) returns (args: seq<string>)
    requires |text| == |mask|
    ensures args == Split(text, mask)
  {
    hide Split, FirstComma;
    args := [];
    var depth, start, i, n := 0, 0, 0, |mask|;
    assert text[0..] == text && mask[0..] == mask;
    while i < n
      invariant 0 <= start <= i <= n
      invariant FirstComma(mask[start..], 0) == i - start + FirstComma(mask[i..], depth)
      invariant args + Split(text[start..], mask[start..]) == Split(text, mask)
    {
      var c := mask[i];
      CommaStep(mask, i, depth);
      if c in "([{" {
        depth := depth + 1;
      } else if c in ")]}" {
        depth := depth - 1;
      } else if c == ',' && depth == 0 {
        SplitOnce(text, mask, start, i);
        TakeOne(args, text[start..i], Split(text[i + 1..], mask[i + 1..]));
        args := args + [text[start..i]];
        start := i + 1;
      }
      i := i + 1;
    }
    NoCommaLeft(mask, i, depth);
    SplitLast(text, mask, start);
    args := args + [text[start..]];
  }

  lemma CommaStep(m: string, i: nat, d: int)
    requires i < |m|
    ensures FirstComma(m[i..], d) == if m[i] == ',' && d == 0 then 0 else 1 + FirstComma(m[i + 1..], d + Step(m[i], true))
    ensures Step(m[i], true) == if m[i] in "([{" then 1 else if m[i] in ")]}" then -1 else 0
  {
    assert m[i..][1..] == m[i + 1..];
  }

  lemma NoCommaLeft(m: string, i: nat, d: int)
    requires i >= |m|
    ensures i == |m| ==> FirstComma(m[i..], d) == 0
  {}

  lemma TakeOne(args: seq<string>, arg: string, rest: seq<string>)
    ensures args + ([arg] + rest) == (args + [arg]) + rest
  {}

  lemma SplitOnce(text: string, mask: string, start: nat, i: nat)
    requires |text| == |mask| && start <= i < |mask| && FirstComma(mask[start..], 0) == i - start
    ensures Split(text[start..], mask[start..]) == [text[start..i]] + Split(text[i + 1..], mask[i + 1..])
  {
    Drops(text, start, i - start + 1);
    Drops(mask, start, i - start + 1);
    assert text[start..][..i - start] == text[start..i];
  }

  lemma SplitLast(text: string, mask: string, start: nat)
    requires |text| == |mask| && start <= |mask| && FirstComma(mask[start..], 0) == |mask| - start
    ensures Split(text[start..], mask[start..]) == [text[start..]]
  {}

  /** Lines 164-176: the list operations of one insertion. */
  method InsertInto(given: seq<string>, index: nat, value: string) returns (args: seq<string>)
    requires Editable(given, index)
    ensures args == Inserted(given, index, value)
  {
    args := given;
    if index == |args| {
      var lead := LeadOf(args[|args| - 1]);
      args := args + [(if '\n' in lead then lead else " ") + value];
    } else {
      var lead := LeadOf(args[index]);
      args := args[..index] + [(if '\n' in lead then lead else " ") + value] + args[index..];
      if index == 0 {
        args := args[0 := value];
        args := args[1 := " " + Stripped(args[1])];
      }
    }
  }

  function Changed(ps: seq<Piece>, index: nat): nat {
    if ps == [] then 0 else (if ps[0].Call? && Editable(ps[0].args, index) then 1 else 0) + Changed(ps[1..], index)
  }

  function Skipped(ps: seq<Piece>, index: nat): nat {
    if ps == [] then 0
    else (if ps[0].Call? && !EmptyCall(ps[0].args) && index > |ps[0].args| then 1 else 0) + Skipped(ps[1..], index)
  }

  /** What the rewriter has produced: the text and its two counts. */
  datatype Outcome = Outcome(text: string, changed: nat, skipped: nat)

  function After(o: Outcome, ps: seq<Piece>, index: nat, value: string): Outcome {
    Outcome(o.text + RenderAll(EditAll(ps, index, value)), o.changed + Changed(ps, index), o.skipped + Skipped(ps, index))
  }

  function Took(o: Outcome, p: Piece, index: nat, value: string): Outcome {
    Outcome(
      o.text + Render(Edit(p, index, value)),
      o.changed + (if p.Call? && Editable(p.args, index) then 1 else 0),
      o.skipped + (if p.Call? && !EmptyCall(p.args) && index > |p.args| then 1 else 0))
  }

  lemma AfterFirst(o: Outcome, p: Piece, ps: seq<Piece>, index: nat, value: string)
    ensures After(o, [p] + ps, index, value) == After(Took(o, p, index, value), ps, index, value)
  {
    hide Render, Editable, EmptyCall;
    assert ([p] + ps)[1..] == ps;
    EditAllFirst(p, ps, index, value);
    RenderFirst(Edit(p, index, value), EditAll(ps, index, value));
    var a, b := Render(Edit(p, index, value)), RenderAll(EditAll(ps, index, value));
    Assoc(o.text, a, b);
  }

  lemma AfterOne(o: Outcome, text: string, index: nat, value: string)
    ensures After(o, [Plain(text)], index, value) == Outcome(o.text + text, o.changed, o.skipped)
  {
    EditAllFirst(Plain(text), [], index, value);
    NothingToEdit(index, value);
    assert [Plain(text)] + [] == [Plain(text)] && [Plain(text)][1..] == [];
    RenderOne(text);
    assert EditAll([Plain(text)], index, value) == [Plain(text)];
    assert Changed([Plain(text)], index) == 0;
    assert Skipped([Plain(text)], index) == 0;
  }

  lemma {:induction false} SkipShift(m: string, i: nat, p: nat)
    requires i + p <= |m|
    ensures SkipSpaces(m, i + p) == i + SkipSpaces(m[i..], p)
    decreases |m| - p
  {
    if i + p < |m| && IsSpace(m[i + p]) {
      assert m[i..][p] == m[i + p];
      SkipShift(m, i, p + 1);
    }
  }

  lemma MatchShift(m: string, i: nat, p: nat, func: string)
    requires i + p <= |m|
    ensures MatchEnd(m, i + p, func) == if MatchEnd(m[i..], p, func) == 0 then 0 else i + MatchEnd(m[i..], p, func)
  {
    if i + p + |func| <= |m| {
      assert m[i..][p..p + |func|] == m[i + p..i + p + |func|];
      SkipShift(m, i, p + |func|);
    }
  }

  lemma {:induction false} FindShift(m: string, i: nat, p: nat, func: string)
    requires i + p <= |m|
    ensures FindMatch(m, i + p, func) == i + FindMatch(m[i..], p, func)
    decreases |m| - p
  {
    hide MatchEnd;
    MatchShift(m, i, p, func);
    if i + p < |m| && MatchEnd(m, i + p, func) == 0 { FindShift(m, i, p + 1, func); }
  }

  /** What the search finds from i on, in positions of the whole mask. */
  lemma NextFrom(m: string, i: nat, func: string)
    requires i <= |m|
    ensures var prev := if i > 0 then m[i - 1] else ' '; var s := FindMatch(m, i, func);
            var found := NextCall(m[i..], prev, func);
            && (found.Nothing? <==> s == |m|)
            && (s < |m| ==> var e := MatchEnd(m, s, func);
                            && e == i + found.e
                            && (found.NotACall? <==> InName(if s > 0 then m[s - 1] else ' ')))
  {
    hide MatchEnd, FindMatch, CloseAt, InName;
    FindShift(m, i, 0, func);
    var s := FindMatch(m, i, func);
    MatchShift(m, i, s - i, func);
    var rest := m[i..];
    if s > i { assert rest[s - i - 1] == m[s - 1]; }
  }

  /** Lines 147-153: the depth loop from just past the parenthesis. */
  method PastCall(mask: string, e: nat) returns (j: nat)
    requires e <= |mask|
    ensures j == if e + CloseAt(mask[e..], 1) < |mask| then e + CloseAt(mask[e..], 1) + 1 else |mask|
  {
    var depth := 1;
    j := e;
    while j < |mask| && depth != 0
      invariant e <= j <= |mask| && depth >= 0
      invariant depth > 0 ==> CloseAt(mask[e..], 1) == j - e + CloseAt(mask[j..], depth)
      invariant depth == 0 ==> j > e && CloseAt(mask[e..], 1) == j - e - 1
    {
      assert mask[j..][1..] == mask[j + 1..];
      if mask[j] == '(' {
        depth := depth + 1;
      } else if mask[j] == ')' {
        depth := depth - 1;
      }
      j := j + 1;
    }
  }

  /** Lines 155-178: one call's arguments, edited or left, with its parenthesis put back. */
  method RewriteCall(o: Outcome, head: string, inner: string, innerMask: string, index: nat, value: string,
                     ghost closed: bool)
      returns (next: Outcome)
    requires |inner| == |innerMask| && Join(Split(inner, innerMask)) == inner
    ensures next == Took(o, Call(head, Split(inner, innerMask), closed), index, value)
  {
    hide Split, Join, Inserted, Stripped;
    var args := SplitArgs(inner, innerMask);
    var emptyCall := |args| == 1 && Stripped(args[0]) == "";
    var text, changed, skipped := o.text + head, o.changed, o.skipped;
    if emptyCall || index > |args| {
      if !emptyCall { skipped := skipped + 1; }
      text := text + (inner + ")");
    } else {
      args := InsertInto(args, index, value);
      text := text + (Join(args) + ")");
      changed := changed + 1;
    }
    next := Outcome(text, changed, skipped);
    Assoc(o.text, head, Join(args) + ")");
  }

  // One turn of the loop leaves the same outcome to be reached from what is left.

  lemma TurnPast(o: Outcome, src: string, mask: string, i: nat, e: nat, prev: char, func: string, index: nat, value: string)
    requires mask == MaskOf(src) && i <= |src| && MaskOf(src[i..]) == mask[i..]
    requires NextCall(mask[i..], prev, func) == NotACall(e)
    ensures MaskOf(src[i + e..]) == mask[i + e..]
    ensures After(o, Parse(src[i..], mask[i..], prev, func), index, value)
         == After(Outcome(o.text + src[i..i + e], o.changed, o.skipped), Parse(src[i + e..], mask[i + e..], '(', func), index, value)
  {
    hide MaskOf, NextCall, After, Closed, Overruns;
    var s, m := src[i..], mask[i..];
    HeadParts(s, m, e);
    Drops(src, i, e);
    Drops(mask, i, e);
    Within(src, i, 0, e);
    AfterPlain(o, s[..e], Parse(s[e..], m[e..], '(', func), index, value);
  }

  lemma TurnCall(o: Outcome, src: string, mask: string, i: nat, e: nat, k: nat, prev: char, func: string, index: nat, value: string)
    requires mask == MaskOf(src) && i <= |src| && MaskOf(src[i..]) == mask[i..]
    requires NextCall(mask[i..], prev, func) == Closes(e, k)
    ensures MaskOf(src[i + k + 1..]) == mask[i + k + 1..] && mask[i + k] == ')'
    ensures After(o, Parse(src[i..], mask[i..], prev, func), index, value)
         == After(Took(o, Call(src[i..i + e], Split(src[i + e..i + k], mask[i + e..i + k]), true), index, value),
                  Parse(src[i + k + 1..], mask[i + k + 1..], ')', func), index, value)
  {
    hide MaskOf, NextCall, After, Took, Split, CloseAt, Closed, Overruns, Nested, Parse;
    var s, m := src[i..], mask[i..];
    CallParts(s, m, e, k);
    assert m[k] == mask[i + k];
    Drops(src, i, k + 1);
    Drops(mask, i, k + 1);
    CallWithin(src, mask, i, e, k);
    ParseCloses(s, m, prev, func, e, k);
    AfterFirst(o, ClosedCall(s, m, e, k), Parse(s[k + 1..], m[k + 1..], ')', func), index, value);
  }

  lemma TurnOpen(o: Outcome, src: string, mask: string, i: nat, e: nat, last: nat, prev: char, next: char,
                 func: string, index: nat, value: string)
    requires mask == MaskOf(src) && i <= |src|
    requires NextCall(mask[i..], prev, func) == Unclosed(e)
    requires last == if i + e < |src| then |src| - 1 else i + e
    ensures After(o, Parse(src[i..], mask[i..], prev, func), index, value)
         == After(Took(o, Call(src[i..i + e], Split(src[i + e..last], mask[i + e..last]), false), index, value),
                  Parse(src[|src|..], mask[|mask|..], next, func), index, value)
  {
    hide MaskOf, NextCall, After, Took, Split;
    var s, m := src[i..], mask[i..];
    OpenWithin(src, mask, i, e);
    AfterFirst(o, OpenCall(s, m, e), [Plain("")], index, value);
    assert [OpenCall(s, m, e), Plain("")] == [OpenCall(s, m, e)] + [Plain("")];
    ParseEnd(src[|src|..], mask[|mask|..], next, func);
  }

  lemma ParseEnd(src: string, mask: string, prev: char, func: string)
    requires |src| == |mask| == 0
    ensures Parse(src, mask, prev, func) == [Plain("")]
  {}

  lemma ParseNothing(src: string, mask: string, prev: char, func: string)
    requires |src| == |mask| && NextCall(mask, prev, func).Nothing?
    ensures Parse(src, mask, prev, func) == [Plain(src)]
  {}

  lemma NextCloses(m: string, prev: char, func: string)
    requires var found := NextCall(m, prev, func); !found.Nothing? && !found.NotACall?
    ensures var found := NextCall(m, prev, func); var c := CloseAt(m[found.e..], 1);
            if found.e + c < |m| then found == Closes(found.e, found.e + c) else found == Unclosed(found.e)
  {
    hide FindMatch, MatchEnd, CloseAt, InName;
  }

  lemma MaskOfNothing(s: string)
    requires s == ""
    ensures MaskOf(s) == ""
  {}

  lemma Within(s: string, i: nat, lo: nat, hi: nat)
    requires lo <= hi && i + hi <= |s|
    ensures s[i..][lo..hi] == s[i + lo..i + hi] && s[i..][..hi] == s[i..i + hi]
  {}

  lemma CallWithin(src: string, mask: string, i: nat, e: nat, k: nat)
    requires |src| == |mask| && e <= k && i + k < |src|
    ensures ClosedCall(src[i..], mask[i..], e, k)
         == Call(src[i..i + e], Split(src[i + e..i + k], mask[i + e..i + k]), true)
  {
    hide Split;
    Within(src, i, 0, e);
    Within(src, i, e, k);
    Within(mask, i, e, k);
  }

  lemma OpenWithin(src: string, mask: string, i: nat, e: nat)
    requires |src| == |mask| && i + e <= |src|
    ensures var last := if i + e < |src| then |src| - 1 else i + e;
            OpenCall(src[i..], mask[i..], e) == Call(src[i..i + e], Split(src[i + e..last], mask[i + e..last]), false)
  {
    hide Split;
    var last := if i + e < |src| then |src| - 1 - i else e;
    Within(src, i, 0, e);
    Within(src, i, e, last);
    Within(mask, i, e, last);
  }

  lemma AfterPlain(o: Outcome, text: string, ps: seq<Piece>, index: nat, value: string)
    ensures After(o, [Plain(text)] + ps, index, value) == After(Outcome(o.text + text, o.changed, o.skipped), ps, index, value)
  {
    hide After;
    AfterFirst(o, Plain(text), ps, index, value);
  }

  lemma InnerJoins(src: string, mask: string, lo: nat, hi: nat)
    requires mask == MaskOf(src) && lo <= hi <= |src|
    ensures Join(Split(src[lo..hi], mask[lo..hi])) == src[lo..hi]
  {
    hide MaskOf, Split, Join;
    CommasBetween(src, lo, hi);
    JoinOfSplit(src[lo..hi], mask[lo..hi]);
  }

  /** Lines 146-179: one accepted call, whose parenthesis is just before e. */
  method CallTurn(o: Outcome, src: string, mask: string, i: nat, e: nat, func: string, index: nat, value: string,
                  ghost prev: char)
      returns (next: Outcome, j: nat)
    requires mask == MaskOf(src) && i < e <= |src| && MaskOf(src[i..]) == mask[i..]
    requires var found := NextCall(mask[i..], prev, func); !found.Nothing? && !found.NotACall? && found.e == e - i
    ensures i < j <= |src| && MaskOf(src[j..]) == mask[j..]
    ensures After(o, Parse(src[i..], mask[i..], prev, func), index, value)
         == After(next, Parse(src[j..], mask[j..], mask[j - 1], func), index, value)
  {
    hide MaskOf, Overruns, Parse, After, Took, Split, Join, CloseAt, NextCall, FindMatch, MatchEnd, InName;
    ghost var closed := e + CloseAt(mask[e..], 1) < |mask|;
    j := PastCall(mask, e);
    var last := if j - 1 < e then e else j - 1;
    InnerJoins(src, mask, e, last);
    NextCloses(mask[i..], prev, func);
    Drops(mask, i, e - i);
    next := RewriteCall(o, src[i..e], src[e..last], mask[e..last], index, value, closed);
    if closed {
      TurnCall(o, src, mask, i, e - i, last - i, prev, func, index, value);
    } else {
      TurnOpen(o, src, mask, i, e - i, last, prev, mask[|mask| - 1], func, index, value);
      MaskOfNothing(src[|src|..]);
    }
  }

  /**
    Lines 117-180. The rewriter fails exactly when a literal ends on a
    backslash; otherwise it gives the source's pieces with each editable call
    edited, and counts the edited calls and those with too few arguments.
   */
  method InsertArg(src: string, func: string, index: nat, value: string) returns (r: Option<Outcome>)
    ensures r == if Overruns(src) then None
                 else Some(After(Outcome("", 0, 0), Parse(src, MaskOf(src), ' ', func), index, value))
  {
    hide MaskOf, Overruns, Parse, After, Took, Split, Join, CloseAt, NextCall, FindMatch, MatchEnd, InName;
    var masked := Mask(src);
    if masked.None? { return None; }
    var mask := masked.value;
    var o, i := Outcome("", 0, 0), 0;
    ghost var goal := After(o, Parse(src, mask, ' ', func), index, value);
    assert src[0..] == src && mask[0..] == mask;
    while true
      invariant i <= |src| && MaskOf(src[i..]) == mask[i..]
      invariant After(o, Parse(src[i..], mask[i..], if i > 0 then mask[i - 1] else ' ', func), index, value) == goal
      decreases |src| - i
    {
      NextFrom(mask, i, func);
      ghost var prev := if i > 0 then mask[i - 1] else ' ';
      ghost var found := NextCall(mask[i..], prev, func);
      var start := FindMatch(mask, i, func);
      if start == |mask| {
        ParseNothing(src[i..], mask[i..], prev, func);
        AfterOne(o, src[i..], index, value);
        return Some(o.(text := o.text + src[i..]));
      }
      var e := MatchEnd(mask, start, func);
      var before := if start > 0 then mask[start - 1] else ' ';
      if InName(before) {
        TurnPast(o, src, mask, i, e - i, prev, func, index, value);
        o := o.(text := o.text + src[i..e]);
        i := e;
        continue;
      }
      o, i := CallTurn(o, src, mask, i, e, func, index, value, prev);
    }
  }

  // ------------------------------------------------------------------ what it means

  /** The whole text insert_arg writes. */
  function Rewritten(src: string, func: string, index: nat, value: string): string {
    After(Outcome("", 0, 0), Parse(src, MaskOf(src), ' ', func), index, value).text
  }

  lemma {:induction false} NothingChanged(ps: seq<Piece>, index: nat, value: string)
    requires Changed(ps, index) == 0
    ensures EditAll(ps, index, value) == ps
    decreases |ps|
  {
    if ps != [] {
      NothingChanged(ps[1..], index, value);
      assert ps == [ps[0]] + ps[1..];
    }
  }

  /** When no call was edited the text comes back as it was, unless an unclosed call lost its last character. */
  lemma UneditedIsIdentity(src: string, func: string, index: nat, value: string)
    requires Changed(Parse(src, MaskOf(src), ' ', func), index) == 0
    ensures Rewritten(src, func, index, value) == src <==>
              AllClosed(Parse(src, MaskOf(src), ' ', func)) || EndsInParen(src)
  {
    hide MaskOf, Parse, AllClosed, RenderAll, EditAll, Changed;
    var ps := Parse(src, MaskOf(src), ' ', func);
    NothingChanged(ps, index, value);
    PiecesAreTheSource(src, MaskOf(src), ' ', func);
    assert "" + RenderAll(ps) == RenderAll(ps);
  }

  /** Every argument but the first keeps its bytes, and the new one is the value behind white space. */
  lemma OthersUntouched(args: seq<string>, index: nat, value: string)
    requires Editable(args, index)
    ensures var edited := Inserted(args, index, value);
            if index == 0 then
              edited[0] == value && edited[2..] == args[1..]
              && edited[1][0] == ' ' && edited[1][1..] == args[0][|LeadOf(args[0])|..]
            else
              && edited[..index] == args[..index] && edited[index + 1..] == args[index..]
              && value <= edited[index][|edited[index]| - |value|..]
              && forall c <- edited[index][..|edited[index]| - |value|] :: IsSpace(c)
  {
    var edited := Inserted(args, index, value);
    if index == 0 {
      assert edited[2..] == args[1..];
    } else {
      var beside := args[if index == |args| then index - 1 else index];
      var lead := if '\n' in LeadOf(beside) then LeadOf(beside) else " ";
      assert edited[index] == lead + value;
      FrontBack(lead, value);
      assert edited[index + 1..] == args[index..];
    }
  }

  /** Piece by piece, what reading the output finds: nothing else moved, and each editable call gained one argument. */
  lemma {:induction false} OneMoreArgument(src: string, func: string, index: nat, value: string, k: nat)
    requires '(' !in func && OneArgument(value)
    requires Balanced(Parse(src, MaskOf(src), ' ', func), index)
    requires k < |Parse(src, MaskOf(src), ' ', func)|
    ensures var out := Rewritten(src, func, index, value);
            var was, now := Parse(src, MaskOf(src), ' ', func), Parse(out, MaskOf(out), ' ', func);
            && |now| == |was| && (Overruns(out) <==> Overruns(src))
            && now[k] == Edit(was[k], index, value)
  {
    hide MaskOf, Parse, Balanced, RenderAll, EditAll, OneArgument, Overruns;
    var ps := Parse(src, MaskOf(src), ' ', func);
    OutputReadsBack(src, MaskOf(src), ' ', func, index, value);
    assert "" + RenderAll(EditAll(ps, index, value)) == RenderAll(EditAll(ps, index, value));
    EditAllAt(ps, index, value, k);
  }

  lemma {:induction false} EditAllAt(ps: seq<Piece>, index: nat, value: string, k: nat)
    requires k < |ps|
    ensures EditAll(ps, index, value)[k] == Edit(ps[k], index, value)
    decreases |ps|
  {
    if k > 0 { EditAllAt(ps[1..], index, value, k - 1); }
  }

  // -------------------------------------------------------- calls inside arguments

  /** Where a piece begins in the text the pieces make up. */
  ghost function Start(ps: seq<Piece>, i: nat): nat
    requires i <= |ps|
  {
    |RenderAll(ps[..i])|
  }

  lemma StartFirst(p: Piece, ps: seq<Piece>, i: nat)
    requires i <= |ps|
    ensures Start([p] + ps, i + 1) == |Render(p)| + Start(ps, i)
  {
    assert ([p] + ps)[..i + 1] == [p] + ps[..i];
    RenderFirst(p, ps[..i]);
  }

  lemma {:induction false} StartNext(ps: seq<Piece>, i: nat)
    requires i < |ps|
    ensures Start(ps, i + 1) == Start(ps, i) + |Render(ps[i])|
    decreases i
  {
    hide Render, RenderAll, Start;
    assert ps == [ps[0]] + ps[1..];
    StartFirst(ps[0], ps[1..], i);
    if i > 0 {
      StartFirst(ps[0], ps[1..], i - 1);
      StartNext(ps[1..], i - 1);
    } else {
      StartsAtNothing(ps);
      StartsAtNothing(ps[1..]);
    }
  }

  lemma PlainLength(text: string)
    ensures |Render(Plain(text))| == |text|
  {}

  lemma CallLength(p: Piece)
    requires p.Call?
    ensures |Render(p)| == |p.head| + |Join(p.args)| + 1
  {}

  lemma StartsAtNothing(ps: seq<Piece>)
    ensures Start(ps, 0) == 0
  {}

  lemma {:induction false} StartOrder(ps: seq<Piece>, i: nat, j: nat)
    requires i <= j <= |ps|
    ensures Start(ps, i) <= Start(ps, j)
    decreases j - i
  {
    hide Render, Start;
    if i < j {
      StartNext(ps, i);
      StartOrder(ps, i + 1, j);
    }
  }

  /** A call whose head begins at o: its arguments run from its parenthesis to the one that closes it. */
  ghost predicate CallAt(src: string, mask: string, p: Piece, o: nat) {
    && p.Call?
    && var h, t := o + |p.head|, o + |p.head| + |Join(p.args)|;
       && 0 < h && t < |src| == |mask|
       && mask[h - 1] == '(' && CloseAt(mask[h..], 1) == t - h && src[h..t] == Join(p.args)
  }

  lemma CallFurtherOn(src: string, mask: string, n: nat, p: Piece, o: nat)
    requires n <= |src| == |mask| && CallAt(src[n..], mask[n..], p, o)
    ensures CallAt(src, mask, p, n + o)
  {
    hide CloseAt, Join;
    var h, t := o + |p.head|, o + |p.head| + |Join(p.args)|;
    FurtherOn(mask, n, h, h);
    FurtherOn(src, n, h, t);
  }

  lemma FurtherOn(s: string, n: nat, a: nat, b: nat)
    requires a <= b && n + b <= |s|
    ensures s[n..][a..] == s[n + a..] && s[n..][a..b] == s[n + a..n + b]
  {}

  lemma CallAtStart(src: string, mask: string, e: nat, k: nat)
    requires mask == MaskOf(src) && 0 < e <= k < |src| && mask[e - 1] == '(' && CloseAt(mask[e..], 1) == k - e
    ensures CallAt(src, mask, ClosedCall(src, mask, e, k), 0)
  {
    hide MaskOf, CloseAt, Join, Split, Closed, Overruns, Nested;
    CallParts(src, mask, e, k);
    CommasAreReal(src[e..k]);
    JoinOfSplit(src[e..k], mask[e..k]);
  }

  lemma LaterCall(src: string, mask: string, n: nat, first: Piece, rest: seq<Piece>, i: nat)
    requires n <= |src| == |mask| && |Render(first)| == n && i < |rest|
    requires CallAt(src[n..], mask[n..], rest[i], Start(rest, i))
    ensures CallAt(src, mask, ([first] + rest)[i + 1], Start([first] + rest, i + 1))
  {
    hide CallAt, Start, Render;
    CallFurtherOn(src, mask, n, rest[i], Start(rest, i));
    StartFirst(first, rest, i);
  }

  ghost predicate CallsIn(src: string, mask: string, ps: seq<Piece>, i: nat) {
    i < |ps| && ps[i].Call? && ps[i].closed ==> CallAt(src, mask, ps[i], Start(ps, i))
  }

  lemma LaterCalls(src: string, mask: string, n: nat, ps: seq<Piece>, first: Piece, rest: seq<Piece>, i: nat)
    requires n <= |src| == |mask| && |Render(first)| == n && ps == [first] + rest && i > 0
    requires CallsIn(src[n..], mask[n..], rest, i - 1)
    ensures CallsIn(src, mask, ps, i)
  {
    hide CallAt, Start, Render;
    if i < |ps| && ps[i].Call? && ps[i].closed { LaterCall(src, mask, n, first, rest, i - 1); }
  }

  lemma FirstCall(src: string, mask: string, e: nat, k: nat, ps: seq<Piece>)
    requires mask == MaskOf(src) && 0 < e <= k < |src| && mask[e - 1] == '(' && CloseAt(mask[e..], 1) == k - e
    requires ps != [] && ps[0] == ClosedCall(src, mask, e, k)
    ensures CallsIn(src, mask, ps, 0)
  {
    hide MaskOf, CloseAt, CallAt, Start, ClosedCall;
    CallAtStart(src, mask, e, k);
    StartsAtNothing(ps);
  }

  lemma PlainLast(src: string, mask: string, prev: char, func: string, i: nat)
    requires |src| == |mask| && (NextCall(mask, prev, func).Nothing? || NextCall(mask, prev, func).Unclosed?)
    ensures CallsIn(src, mask, Parse(src, mask, prev, func), i)
  {}

  lemma PlainParts(src: string, mask: string, prev: char, func: string, e: nat)
    requires |src| == |mask| && NextCall(mask, prev, func) == NotACall(e)
    ensures Parse(src, mask, prev, func) == [Plain(src[..e])] + Parse(src[e..], mask[e..], '(', func)
  {}

  lemma PlainFirst(src: string, mask: string, ps: seq<Piece>)
    requires ps != [] && ps[0].Plain?
    ensures CallsIn(src, mask, ps, 0)
  {}

  /** Every closed call of the text lies where its piece does. */
  lemma {:induction false} CallsLie(src: string, mask: string, prev: char, func: string, i: nat)
    requires mask == MaskOf(src)
    ensures CallsIn(src, mask, Parse(src, mask, prev, func), i)
    decreases |src|
  {
    hide MaskOf, Parse, NextCall, CloseAt, CallAt, CallsIn, Render, ClosedCall, OpenCall, Closed, Overruns, Nested;
    var ps := Parse(src, mask, prev, func);
    match NextCall(mask, prev, func) {
      case Nothing => PlainLast(src, mask, prev, func, i);
      case Unclosed(_) => PlainLast(src, mask, prev, func, i);
      case NotACall(e) =>
        PlainParts(src, mask, prev, func, e);
        if i == 0 {
          PlainFirst(src, mask, ps);
        } else {
          HeadParts(src, mask, e);
          CallsLie(src[e..], mask[e..], '(', func, i - 1);
          PlainLength(src[..e]);
          LaterCalls(src, mask, e, ps, Plain(src[..e]), Parse(src[e..], mask[e..], '(', func), i);
        }
      case Closes(e, k) =>
        ParseCloses(src, mask, prev, func, e, k);
        if i == 0 {
          FirstCall(src, mask, e, k, ps);
        } else {
          CallIsItsText(src, mask, e, k);
          CallsLie(src[k + 1..], mask[k + 1..], ')', func, i - 1);
          LaterCalls(src, mask, k + 1, ps, ClosedCall(src, mask, e, k), Parse(src[k + 1..], mask[k + 1..], ')', func), i);
        }
    }
  }

  /**
    Whatever stands between the parentheses of a closed call, a call of the same
    name included, belongs to that one piece: every position of it falls in the
    piece, past its head, and in no other, so nothing in there is edited by itself.
   */
  lemma InnerCallStays(src: string, func: string, i: nat, j: nat, x: nat)
    requires i < |Parse(src, MaskOf(src), ' ', func)| && j < |Parse(src, MaskOf(src), ' ', func)|
    requires var p := Parse(src, MaskOf(src), ' ', func)[i]; p.Call? && p.closed
    ensures var ps := Parse(src, MaskOf(src), ' ', func);
            var h := Start(ps, i) + |ps[i].head|;
            && CallAt(src, MaskOf(src), ps[i], Start(ps, i))
            && (h <= x <= h + CloseAt(MaskOf(src)[h..], 1) ==>
                (Start(ps, j) <= x < Start(ps, j + 1) <==> j == i))
  {
    hide MaskOf, Parse, Start, Render, Join, CloseAt;
    var ps := Parse(src, MaskOf(src), ' ', func);
    CallsLie(src, MaskOf(src), ' ', func, i);
    StartNext(ps, i);
    CallLength(ps[i]);
    if j < i { StartOrder(ps, j + 1, i); }
    if j > i { StartOrder(ps, i + 1, j); }
  }

  // ------------------------------------------------------------- an unclosed call

  /** With nothing to put in, a call left open loses its last character to the parenthesis it is given. */
  lemma UnclosedLosesACharacter(value: string)
    ensures Rewritten("f(x", "f", 5, value) == "f()"
  {
    hide MaskOf, Parse, EditAll, RenderAll;
    PlainText("f(x");
    OpenPieces();
    NotEdited(value);
  }

  lemma OpenFound()
    ensures NextCall("f(x", ' ', "f") == Unclosed(2)
  {
    var src := "f(x";
    assert src[0..1] == "f";
    assert MatchEnd(src, 0, "f") == 2;
    assert src[2..] == "x" && "x"[1..] == "";
    assert CloseAt("x", 1) == 1;
  }

  lemma OpenPieces()
    ensures Parse("f(x", "f(x", ' ', "f") == [Call("f(", [""], false), Plain("")]
  {
    hide NextCall;
    var src := "f(x";
    OpenFound();
    assert src[..2] == "f(" && src[2..2] == "";
    assert OpenCall(src, src, 2) == Call("f(", [""], false);
  }

  lemma NotEdited(value: string)
    ensures var ps := [Call("f(", [""], false), Plain("")];
            EditAll(ps, 5, value) == ps && RenderAll(ps) == "f()"
  {
    var ps := [Call("f(", [""], false), Plain("")];
    assert ps[1..] == [Plain("")];
  }

  /** Text without quotes or slashes is its own mask. */
  lemma {:induction false} PlainText(s: string)
    requires forall c <- s :: !IsQuote(c) && c != '/'
    ensures MaskOf(s) == s
    decreases |s|
  {
    if s != "" {
      PlainText(s[1..]);
      assert s == [s[0]] + s[1..] && s[..1] == [s[0]];
    }
  }
}
