/** Written tokens: every layout of tokens, with blanks and comments between them, is read as those tokens. */
module SourceText {
  import opened LibcText
  import opened AssemblyText
  import opened SourceLanguage
  import opened Lexer
  import opened Grammar

  // ---------- white space and comments ----------

  datatype Space = Blank(c: char) | Comment(text: string)

  predicate IsSpacing(p: Space) {
    match p
    case Blank(c) => IsSpace(c)
    case Comment(text) => '\n' !in text && '\0' !in text
  }

  function SpaceText(p: Space): string {
    match p
    case Blank(c) => [c]
    case Comment(text) => "//" + text + "\n"
  }

  function GapText(gap: seq<Space>): string {
    if gap == [] then "" else SpaceText(gap[0]) + GapText(gap[1..])
  }

  /** Text at which the scanner stops skipping: a visible character that starts no comment, or the end. */
  predicate StartsToken(rest: string) {
    rest == "" || (IsVisible(rest[0]) && rest[0] != '/')
  }

  lemma CharAfter(s: string, i: nat, a: string, b: string)
    requires i <= |s| && s[i..] == a + b
    ensures i + |a| <= |s| && s[i + |a|..] == b && s[i..i + |a|] == a
    ensures CharAt(s, i + |a|) == CharAt(b, 0) && CharAt(s, i + |a| + 1) == CharAt(b, 1)
  {
    assert |s| == i + |a| + |b|;
    assert s[i + |a|..] == s[i..][|a|..] == b;
    assert s[i..i + |a|] == s[i..][..|a|] == a;
    assert forall k :: 0 <= k < |b| ==> s[i + |a| + k] == b[k];
  }

  lemma SkipBlank(s: string, i: nat)
    requires i < |s| && IsSpace(s[i])
    ensures SkipBlanks(s, i) == SkipBlanks(s, i + 1)
  {
    hide *;
    BlankScanned(s, i);
    BlanksStep(s, i);
    BlanksStep(s, i + 1);
  }

  lemma BlankScanned(s: string, i: nat)
    requires i < |s| && IsSpace(s[i])
    ensures Scan(s, i, IsVisible) == Scan(s, i + 1, IsVisible)
  {
  }

  /** A comment and its newline stand at `i`. */
  predicate CommentHere(s: string, i: nat, text: string) {
    && i + 3 + |text| <= |s| && s[i] == '/' && s[i + 1] == '/' && s[i + 2 + |text|] == '\n'
    && forall k :: i + 2 <= k < i + 2 + |text| ==> s[k] == text[k - i - 2]
  }

  lemma CommentStands(s: string, i: nat, text: string, rest: string)
    requires i <= |s| && s[i..] == SpaceText(Comment(text)) + rest
    ensures CommentHere(s, i, text)
  {
    var whole := SpaceText(Comment(text));
    assert |s| == i + |whole| + |rest|;
    assert forall k :: 0 <= k < |whole| ==> s[i + k] == s[i..][k] == whole[k];
    assert forall k :: i + 2 <= k < i + 2 + |text| ==> s[k] == whole[k - i] == text[k - i - 2];
  }

  lemma SkipComment(s: string, i: nat, text: string)
    requires CommentHere(s, i, text) && '\n' !in text && '\0' !in text
    ensures SkipBlanks(s, i) == SkipBlanks(s, i + 3 + |text|)
  {
    hide SkipBlanks, Scan;
    ScanStopsAt(s, i, IsVisible, i);
    ScanStopsAt(s, i + 2, EndsComment, i + 2 + |text|);
    BlanksStep(s, i);
  }

  lemma SkipSpacing(s: string, i: nat, p: Space, rest: string)
    requires i <= |s| && s[i..] == SpaceText(p) + rest && IsSpacing(p)
    ensures i + |SpaceText(p)| <= |s| && SkipBlanks(s, i) == SkipBlanks(s, i + |SpaceText(p)|)
  {
    hide SkipBlanks, CommentHere;
    CharAfter(s, i, SpaceText(p), rest);
    match p {
      case Blank(c) =>
        assert s[i] == s[i..][0] == c;
        SkipBlank(s, i);
      case Comment(text) =>
        CommentStands(s, i, text, rest);
        SkipComment(s, i, text);
    }
  }

  lemma GapParts(gap: seq<Space>, rest: string)
    requires gap != []
    ensures GapText(gap) + rest == SpaceText(gap[0]) + (GapText(gap[1..]) + rest)
    ensures |GapText(gap)| == |SpaceText(gap[0])| + |GapText(gap[1..])|
  {
    hide SpaceText;
    assert SpaceText(gap[0]) + GapText(gap[1..]) + rest == SpaceText(gap[0]) + (GapText(gap[1..]) + rest);
  }

  lemma {:induction false} SkipGap(s: string, i: nat, gap: seq<Space>, rest: string)
    requires i <= |s| && s[i..] == GapText(gap) + rest && StartsToken(rest)
    requires forall p :: p in gap ==> IsSpacing(p)
    ensures SkipBlanks(s, i) == i + |GapText(gap)|
    decreases |gap|
  {
    hide SkipBlanks, Scan, IsSpacing, SpaceText;
    if gap == [] {
      CharAfter(s, i, "", rest);
      ScanStopsAt(s, i, IsVisible, i);
      BlanksStep(s, i);
    } else {
      var more := GapText(gap[1..]) + rest;
      GapParts(gap, rest);
      SkipSpacing(s, i, gap[0], more);
      CharAfter(s, i, SpaceText(gap[0]), more);
      SkipGap(s, i + |SpaceText(gap[0])|, gap[1..], rest);
    }
  }

  /** Blanks alone are skipped without looking for comments. */
  lemma {:induction false} ScanGap(s: string, i: nat, gap: seq<Space>, rest: string)
    requires i <= |s| && s[i..] == GapText(gap) + rest && StartsToken(rest)
    requires forall p :: p in gap ==> p.Blank? && IsSpacing(p)
    ensures !CommentAt(s, Scan(s, i, IsVisible))
    decreases |gap|
  {
    hide Scan, IsSpace;
    if gap == [] {
      CharAfter(s, i, "", rest);
      ScanStopsAt(s, i, IsVisible, i);
    } else {
      var more := GapText(gap[1..]) + rest;
      GapParts(gap, rest);
      CharAfter(s, i, SpaceText(gap[0]), more);
      assert s[i] == s[i..][0] == gap[0].c && IsSpacing(gap[0]);
      BlankScanned(s, i);
      ScanGap(s, i + 1, gap[1..], rest);
    }
  }

  // ---------- written tokens ----------

  function Spelling(t: Token): string {
    if t.kind == Text then "\"" + t.value + "\"" else t.value
  }

  predicate IsWordText(w: string) {
    w != "" && IsAlpha(w[0]) && forall k :: 0 <= k < |w| ==> !EndsIdentifier(w[k])
  }

  predicate HasHexStart(v: string) {
    |v| >= 2 && v[0] == '0' && (v[1] == 'x' || v[1] == 'X')
  }

  predicate IsNumberText(v: string) {
    v != "" && IsDigit(v[0])
    && if HasHexStart(v) then forall k :: 2 <= k < |v| ==> IsHexDigit(v[k])
       else forall k :: 0 <= k < |v| ==> IsDigit(v[k])
  }

  /** A kind and a text that go together and fit the token buffer. */
  predicate Lexable(t: Token) {
    && |t.value| < MAX_TOKEN_VALUE
    && match t.kind
       case Numeral => IsNumberText(t.value)
       case Text => '"' !in t.value && '\0' !in t.value
       case End => t.value == ""
       case Differs => t.value == "!="
       case _ => (IsWordText(t.value) && KeywordKind(t.value) == t.kind)
                 || (|t.value| == 1 && SymbolKind(t.value[0]) == t.kind)
  }

  /** Tokens of letters and digits, which run together without a gap. */
  predicate IsWordy(t: Token) {
    t.value != "" && t.kind != Text && !EndsIdentifier(t.value[0])
  }

  /** Text that ends the word before it. */
  predicate EndsWord(rest: string) {
    rest == "" || EndsIdentifier(rest[0])
  }

  lemma SpellingStarts(t: Token)
    requires Lexable(t) && t.kind != End
    ensures Spelling(t) != "" && StartsToken(Spelling(t)) && Spelling(t)[0] != '\0'
    ensures IsWordy(t) <==> !EndsIdentifier(Spelling(t)[0])
  {
  }

  lemma SpellingThen(t: Token, rest: string)
    requires Lexable(t) && (t.kind == End ==> rest == "")
    ensures StartsToken(Spelling(t) + rest) && |t.value| < MAX_TOKEN_VALUE
    ensures if t.kind == Text then |Spelling(t)| == |t.value| + 2 else Spelling(t) == t.value
    ensures t.kind == Kind.Numeral || IsWordText(t.value) ==> t.kind == Text || IsWordy(t)
    ensures IsWordText(t.value) && t.kind != Text && t.kind != Kind.Numeral ==> KeywordKind(t.value) == t.kind
  {
    if t.kind != End { SpellingStarts(t); }
  }

  lemma LexWord(s: string, i: nat, previous: Token, p: nat, t: Token, rest: string)
    requires i <= |s| && p == SkipBlanks(s, i) && s[p..] == t.value + rest
    requires Lexable(t) && IsWordText(t.value) && EndsWord(rest) && KeywordKind(t.value) == t.kind
    ensures Lex(s, i, previous) == Lexed(t, p + |t.value|)
  {
    hide SkipBlanks, KeywordKind;
    CharAfter(s, p, t.value, rest);
    assert forall k :: p <= k < p + |t.value| ==> s[k] == t.value[k - p];
    ScanStopsAt(s, p, EndsIdentifier, p + |t.value|);
  }

  lemma LexNumber(s: string, i: nat, previous: Token, p: nat, t: Token, rest: string)
    requires i <= |s| && p == SkipBlanks(s, i) && s[p..] == t.value + rest
    requires Lexable(t) && t.kind == Kind.Numeral && EndsWord(rest)
    ensures Lex(s, i, previous) == Lexed(t, p + |t.value|)
  {
    hide SkipBlanks, KeywordKind;
    CharAfter(s, p, t.value, rest);
    var e := p + |t.value|;
    assert forall k :: p <= k < e ==> s[k] == t.value[k - p];
    if HasHexStart(t.value) {
      ScanStopsAt(s, p + 2, EndsHexDigits, e);
    } else {
      ScanStopsAt(s, p, EndsDigits, e);
    }
  }

  lemma LexText(s: string, i: nat, previous: Token, p: nat, t: Token, rest: string)
    requires i <= |s| && p == SkipBlanks(s, i) && s[p..] == Spelling(t) + rest
    requires Lexable(t) && t.kind == Text
    ensures Lex(s, i, previous) == Lexed(t, p + |t.value| + 2)
  {
    hide SkipBlanks, KeywordKind;
    CharAfter(s, p, Spelling(t), rest);
    var e := p + 1 + |t.value|;
    assert forall k :: p <= k <= e ==> s[k] == Spelling(t)[k - p];
    assert forall k :: p + 1 <= k < e ==> s[k] == t.value[k - p - 1];
    ScanStopsAt(s, p + 1, EndsText, e);
    assert s[p + 1..e] == t.value;
  }

  lemma SymbolForm(t: Token)
    requires Lexable(t) && t.kind != Kind.Numeral && t.kind != Text && !IsWordText(t.value)
    ensures t == Token(End, "") || t == Token(Differs, "!=")
            || (t.kind != End && |t.value| == 1 && SymbolKind(t.value[0]) == t.kind)
  {
    hide KeywordKind, IsWordText;
  }

  lemma SymbolChar(c: char)
    ensures SymbolKind(c) != End ==> c != '\0' && c != '"' && !IsDigit(c) && !IsAlpha(c)
  {
  }

  lemma LexSymbol(s: string, i: nat, previous: Token, p: nat, t: Token, rest: string)
    requires i <= |s| && p == SkipBlanks(s, i) && s[p..] == t.value + rest
    requires Lexable(t) && t.kind != Kind.Numeral && t.kind != Text && (t.kind == End ==> rest == "")
    requires !IsWordText(t.value)
    ensures Lex(s, i, previous) == Lexed(t, p + |t.value|)
  {
    hide SkipBlanks, KeywordKind, Lexable, IsWordText, NumeralEnd, Scan;
    SymbolForm(t);
    CharAfter(s, p, t.value, rest);
    if t.kind != End {
      assert forall k :: p <= k < p + |t.value| ==> s[k] == t.value[k - p];
      SymbolChar(s[p]);
    }
  }

  /** A token behind a gap is read as itself, whatever ends it. */
  lemma LexWritten(s: string, i: nat, previous: Token, gap: seq<Space>, t: Token, rest: string)
    requires i <= |s| && s[i..] == GapText(gap) + (Spelling(t) + rest)
    requires Lexable(t) && (forall p :: p in gap ==> IsSpacing(p))
    requires (IsWordy(t) ==> EndsWord(rest)) && (t.kind == End ==> rest == "")
    ensures |s| == i + |GapText(gap)| + |Spelling(t)| + |rest|
    ensures Lex(s, i, previous) == Lexed(t, |s| - |rest|)
  {
    hide SkipBlanks, Lex, KeywordKind, Lexable, Spelling, IsWordText, StartsToken, EndsWord;
    SpellingThen(t, rest);
    SkipGap(s, i, gap, Spelling(t) + rest);
    CharAfter(s, i, GapText(gap), Spelling(t) + rest);
    var p := i + |GapText(gap)|;
    if t.kind == Text {
      LexText(s, i, previous, p, t, rest);
    } else if t.kind == Kind.Numeral {
      LexNumber(s, i, previous, p, t, rest);
    } else if IsWordText(t.value) {
      LexWord(s, i, previous, p, t, rest);
    } else {
      LexSymbol(s, i, previous, p, t, rest);
    }
  }

  // ---------- layouts ----------

  /** A token and the gap before it. */
  datatype Placed = Placed(gap: seq<Space>, token: Expected)

  function LayoutText(layout: seq<Placed>): string {
    if layout == [] then "" else GapText(layout[0].gap) + (Spelling(layout[0].token.token) + LayoutText(layout[1..]))
  }

  function Tokens(layout: seq<Placed>): (tokens: seq<Expected>)
    ensures |tokens| == |layout|
  {
    seq(|layout|, i requires 0 <= i < |layout| => layout[i].token)
  }

  /** Words are kept apart, and no comment stands behind an identifier that starts a statement. */
  predicate Follows(before: Placed, after: Placed) {
    && (IsWordy(before.token.token) && IsWordy(after.token.token) ==> after.gap != [])
    && (before.token.leading ==> forall p :: p in after.gap ==> p.Blank?)
  }

  predicate IsLayout(layout: seq<Placed>) {
    && (forall k, p :: 0 <= k < |layout| && p in layout[k].gap ==> IsSpacing(p))
    && (forall k :: 0 < k < |layout| ==> Follows(layout[k - 1], layout[k]))
  }

  /** Tokens that can be written, the end of the text only as the last one. */
  predicate AllLexable(tokens: seq<Expected>) {
    forall k :: 0 <= k < |tokens|
      ==> Lexable(tokens[k].token) && (tokens[k].token.kind == End ==> k == |tokens| - 1 && !tokens[k].leading)
  }

  lemma LayoutTail(layout: seq<Placed>)
    requires layout != [] && IsLayout(layout) && AllLexable(Tokens(layout))
    ensures IsLayout(layout[1..]) && AllLexable(Tokens(layout[1..])) && Tokens(layout)[1..] == Tokens(layout[1..])
  {
    hide Lexable, IsSpacing;
    var rest := layout[1..];
    assert forall k :: 0 <= k < |rest| ==> rest[k] == layout[k + 1] && Tokens(rest)[k] == Tokens(layout)[k + 1];
  }

  lemma TextStarts(layout: seq<Placed>)
    requires layout != [] && Lexable(layout[0].token.token) && (layout[0].token.token.kind == End ==> |layout| == 1)
    requires forall p :: p in layout[0].gap ==> IsSpacing(p)
    ensures layout[0].gap != [] || !IsWordy(layout[0].token.token) ==> EndsWord(LayoutText(layout))
    ensures StartsToken(Spelling(layout[0].token.token) + LayoutText(layout[1..]))
  {
    if layout[0].token.token.kind != End { SpellingStarts(layout[0].token.token); }
    if layout[0].gap != [] { assert IsSpacing(layout[0].gap[0]); }
  }

  /** Every layout of tokens, with any blanks and comments between them, is read as those tokens. */
  lemma {:induction false} LayoutRead(s: string, i: nat, previous: Token, layout: seq<Placed>)
    requires i <= |s| && s[i..] == LayoutText(layout) && IsLayout(layout) && AllLexable(Tokens(layout))
    ensures Stream(s, i, previous, Tokens(layout))
    decreases |layout|
  {
    hide Lex, Lexable, Scan, CommentAt, Spelling, IsWordy, EndsWord, StartsToken, Follows, IsSpacing;
    if layout != [] {
      var first, rest := layout[0], layout[1..];
      var tail := LayoutText(rest);
      LayoutTail(layout);
      assert Tokens(layout)[0] == first.token;
      NextStarts(layout);
      LexWritten(s, i, previous, first.gap, first.token.token, tail);
      TailText(s, i, GapText(first.gap), Spelling(first.token.token), tail);
      LayoutRead(s, |s| - |tail|, first.token.token, rest);
      if first.token.leading && rest != [] {
        NextBlank(layout);
        ScanGap(s, |s| - |tail|, rest[0].gap, Spelling(rest[0].token.token) + LayoutText(rest[1..]));
      } else if first.token.leading {
        NothingLeft(s);
      }
      ShortEnough(first.token.token);
    }
  }

  lemma ShortEnough(t: Token)
    requires Lexable(t)
    ensures |t.value| < MAX_TOKEN_VALUE
  {
  }

  lemma NothingLeft(s: string)
    ensures !CommentAt(s, Scan(s, |s|, IsVisible))
  {
  }

  lemma TailText(s: string, i: nat, gap: string, word: string, tail: string)
    requires i <= |s| && s[i..] == gap + (word + tail)
    ensures |tail| <= |s| && s[|s| - |tail|..] == tail
  {
    assert |s| == i + |gap| + |word| + |tail|;
    assert s[|s| - |tail|..] == s[i..][|gap| + |word|..];
  }

  lemma NextStarts(layout: seq<Placed>)
    requires layout != [] && IsLayout(layout) && AllLexable(Tokens(layout))
    ensures var t := layout[0].token.token;
            Lexable(t) && (IsWordy(t) ==> EndsWord(LayoutText(layout[1..])))
            && (t.kind == End ==> LayoutText(layout[1..]) == "")
    ensures |layout| > 1 ==> StartsToken(Spelling(layout[1].token.token) + LayoutText(layout[1..][1..]))
    ensures forall p :: p in layout[0].gap ==> IsSpacing(p)
  {
    hide Lexable, IsWordy, EndsWord, StartsToken, IsSpacing, Spelling;
    assert Tokens(layout)[0] == layout[0].token;
    if |layout| > 1 {
      assert Tokens(layout)[1] == layout[1].token && layout[1..][0] == layout[1];
      assert Follows(layout[0], layout[1]);
      TextStarts(layout[1..]);
    } else {
      NothingEndsWord();
      assert layout[1..] == [];
    }
  }

  lemma NothingEndsWord()
    ensures EndsWord("")
  {
  }

  lemma NextBlank(layout: seq<Placed>)
    requires |layout| > 1 && IsLayout(layout) && layout[0].token.leading
    ensures forall p :: p in layout[1..][0].gap ==> p.Blank? && IsSpacing(p)
  {
    assert Follows(layout[0], layout[1]);
  }
}
