/** Substituting values into the placeholders of a message text (format in src/metadata/message.rs). */
module Format {
  import opened Wrappers
  import opened Sequences
  import opened Numerals

  // ---------- what a text means ----------

  datatype Token = Literal(c: char) | Placeholder(content: string, index: nat)

  predicate IsBrace(c: char) {
    c == '{' || c == '}'
  }

  predicate NoBraces(s: string) {
    forall i :: 0 <= i < |s| ==> !IsBrace(s[i])
  }

  const USIZE_LIMIT: nat := 0x1_0000_0000_0000_0000

  predicate AllDigits(s: string) {
    forall i :: 0 <= i < |s| ==> '0' <= s[i] <= '9'
  }

  function DecimalValue(digits: string): nat
    requires AllDigits(digits)
  {
    if digits == "" then 0 else 10 * DecimalValue(Front(digits)) + (Last(digits) as int - '0' as int)
  }

  /** str::parse::<usize>: decimal digits after an optional plus sign, and no overflow. */
  function ParseIndex(s: string): Option<nat> {
    var digits := if "+" <= s then s[1..] else s;
    if digits != "" && AllDigits(digits) && DecimalValue(digits) < USIZE_LIMIT then Some(DecimalValue(digits)) else None
  }

  // ---------- which texts are indices ----------

  lemma {:induction false} NumeralValue(n: nat)
    ensures AllDigits(Numeral(n)) && DecimalValue(Numeral(n)) == n
  {
    DigitIs(n % 10);
    if n < 10 {
      assert Front(Numeral(n)) == "" && DecimalValue("") == 0;
    } else {
      NumeralValue(n / 10);
      AppendedIs(Numeral(n / 10), "0123456789"[n % 10]);
    }
  }

  lemma PlusIsDropped(s: string)
    ensures "+" <= "+" + s && ("+" + s)[1..] == s
  {
  }

  /** The numeral of a number that fits in 64 bits stands for it, with or without a plus sign. */
  lemma NumeralParses(n: nat)
    requires n < 0x1_0000_0000_0000_0000
    ensures ParseIndex(Numeral(n)) == Some(n) && ParseIndex("+" + Numeral(n)) == Some(n)
    ensures NoBraces(Numeral(n)) && NoBraces("+" + Numeral(n))
  {
    NumeralValue(n);
    PlusIsDropped(Numeral(n));
    assert Numeral(n)[0] in Numeral(n);
  }

  /** What has an index is one or more digits, perhaps after a plus sign. */
  lemma IndexIsDigits(s: string)
    requires ParseIndex(s).Some?
    ensures var digits := if "+" <= s then s[1..] else s;
            digits != "" && forall c :: c in digits ==> c in "0123456789"
  {
    var digits := if "+" <= s then s[1..] else s;
    forall c | c in digits
      ensures c in "0123456789"
    {
      DigitIff(c);
    }
  }

  /** A digit stands for itself, and one more digit after an index makes it ten times as large and adds to it. */
  lemma IndexByDigits(s: string, d: nat)
    requires d < 10
    ensures var c := "0123456789"[d];
            && ParseIndex([c]) == Some(d) && ParseIndex(['+', c]) == Some(d)
            && (ParseIndex(s).Some? ==>
                  var n := 10 * ParseIndex(s).value + d;
                  ParseIndex(s + [c]) == if n < 0x1_0000_0000_0000_0000 then Some(n) else None)
            && (ParseIndex(s).None? && s != "" && s != "+" ==> ParseIndex(s + [c]).None?)
  {
    var c := "0123456789"[d];
    DigitIs(d);
    OneDigit(c);
    if s != "" && s != "+" {
      OneMoreDigit(s, c);
    }
  }

  lemma OneDigit(c: char)
    requires '0' <= c <= '9'
    ensures ParseIndex([c]) == Some(c as int - '0' as int) && ParseIndex(['+', c]) == Some(c as int - '0' as int)
  {
    assert Front([c]) == "" && DecimalValue("") == 0;
    assert [c][0] == c && "+"[0] == '+';
    assert ['+', c][1..] == [c] && "+" <= ['+', c];
  }

  lemma OneMoreDigit(s: string, c: char)
    requires '0' <= c <= '9' && s != "" && s != "+"
    ensures ParseIndex(s).Some? ==>
              var n := 10 * ParseIndex(s).value + (c as int - '0' as int);
              ParseIndex(s + [c]) == if n < USIZE_LIMIT then Some(n) else None
    ensures ParseIndex(s).None? ==> ParseIndex(s + [c]).None?
  {
    var digits := if "+" <= s then s[1..] else s;
    assert "+" <= s + [c] <==> "+" <= s;
    assert (s + [c])[1..] == s[1..] + [c];
    AppendedIs(digits, c);
    assert AllDigits(digits + [c]) <==> AllDigits(digits) by {
      if AllDigits(digits + [c]) {
        assert forall i :: 0 <= i < |digits| ==> digits[i] == (digits + [c])[i];
      }
    }
  }

  /** The length of the longest prefix without braces. */
  function PlainLength(s: string): (n: nat)
    ensures n <= |s|
  {
    if s == "" || IsBrace(s[0]) then 0 else PlainLength(s[1..]) + 1
  }

  lemma {:induction false} PlainLengthMeans(s: string)
    ensures NoBraces(s[..PlainLength(s)])
    ensures PlainLength(s) < |s| ==> IsBrace(s[PlainLength(s)])
  {
    if s != "" && !IsBrace(s[0]) {
      PlainLengthMeans(s[1..]);
      var n := PlainLength(s);
      assert forall i :: 0 < i < n ==> s[i] == s[1..][..n - 1][i - 1];
    }
  }

  /** The text starts with a pair of braces around an index, with no brace between them. */
  predicate OpensPlaceholder(text: string)
    requires text != ""
  {
    var n := PlainLength(text[1..]);
    text[0] == '{' && n + 1 < |text| && text[n + 1] == '}' && ParseIndex(text[1..n + 1]).Some?
  }

  function FirstToken(text: string): Token
    requires text != ""
  {
    var content := text[1..PlainLength(text[1..]) + 1];
    if OpensPlaceholder(text) then Placeholder(content, ParseIndex(content).value) else Literal(text[0])
  }

  function AfterFirst(text: string): (rest: string)
    requires text != ""
    ensures |rest| < |text|
  {
    if OpensPlaceholder(text) then text[PlainLength(text[1..]) + 2..] else text[1..]
  }

  /** Such pairs of braces are placeholders. Everything else is literal. */
  function Tokens(text: string): seq<Token>
    decreases |text|
  {
    if text == "" then [] else [FirstToken(text)] + Tokens(AfterFirst(text))
  }

  function Literals(s: string): seq<Token> {
    seq(|s|, i requires 0 <= i < |s| => Literal(s[i]))
  }

  /** The text with placeholders replaced by what they stand for. */
  function Expand(tokens: seq<Token>, subs: seq<string>): string {
    if tokens == [] then ""
    else Expand(Front(tokens), subs) + match Last(tokens)
                                       case Literal(c) => [c]
                                       case Placeholder(_, index) => if index < |subs| then subs[index] else ""
  }

  predicate InRange(t: Token, n: nat) {
    t.Placeholder? ==> t.index < n
  }

  predicate AllInRange(tokens: seq<Token>, n: nat) {
    forall t :: t in tokens ==> InRange(t, n)
  }

  function FirstOutOfRange(tokens: seq<Token>, n: nat): (r: Option<Token>)
    ensures r.Some? ==> r.value.Placeholder? && r.value.index >= n && r.value in tokens
    ensures r.None? <==> AllInRange(tokens, n)
  {
    if tokens == [] then None
    else if !InRange(tokens[0], n) then Some(tokens[0])
    else
      assert tokens == [tokens[0]] + tokens[1..];
      FirstOutOfRange(tokens[1..], n)
  }

  predicate Uses(tokens: seq<Token>, index: nat) {
    exists t :: t in tokens && t.Placeholder? && t.index == index
  }

  /** The lowest index from k on that no placeholder uses. */
  function LowestUnused(tokens: seq<Token>, k: nat, n: nat): (r: Option<nat>)
    requires k <= n
    ensures r.Some? ==> k <= r.value < n && !Uses(tokens, r.value) && forall i :: k <= i < r.value ==> Uses(tokens, i)
    ensures r.None? ==> forall i :: k <= i < n ==> Uses(tokens, i)
    decreases n - k
  {
    if k == n then None else if !Uses(tokens, k) then Some(k) else LowestUnused(tokens, k + 1, n)
  }

  datatype FormatError = MissingSubstitution(placeholder: string) | MissingPlaceholder(sub: string, index: nat)

  function Formatted(text: string, subs: seq<string>): Result<string, FormatError> {
    var tokens := Tokens(text);
    var missing, unused := FirstOutOfRange(tokens, |subs|), LowestUnused(tokens, 0, |subs|);
    if missing.Some? then Err(MissingSubstitution("{" + missing.value.content + "}"))
    else if unused.Some? then Err(MissingPlaceholder(subs[unused.value], unused.value))
    else Ok(Expand(tokens, subs))
  }

  // ---------- tokens ----------

  lemma {:induction false} PlainLengthIs(plain: string, rest: string)
    requires NoBraces(plain) && (rest == "" || IsBrace(rest[0]))
    ensures PlainLength(plain + rest) == |plain|
  {
    if plain == "" {
      assert plain + rest == rest;
    } else {
      assert (plain + rest)[1..] == plain[1..] + rest;
      PlainLengthIs(plain[1..], rest);
    }
  }

  lemma LiteralFirst(text: string)
    requires text != "" && !OpensPlaceholder(text)
    ensures Tokens(text) == [Literal(text[0])] + Tokens(text[1..])
  {
  }

  lemma HeadOf(plain: string, rest: string)
    requires plain != ""
    ensures (plain + rest)[0] == plain[0] && (plain + rest)[1..] == plain[1..] + rest
    ensures Literals(plain) == [Literal(plain[0])] + Literals(plain[1..])
  {
  }

  /** Text without braces is literal. */
  lemma {:induction false} PlainTokens(plain: string, rest: string)
    requires NoBraces(plain)
    ensures Tokens(plain + rest) == Literals(plain) + Tokens(rest)
  {
    if plain == "" {
      EmptyPlain(rest);
    } else {
      PlainFirst(plain, rest);
      PlainTokens(plain[1..], rest);
      PrependToBoth(Literal(plain[0]), Tokens(plain[1..] + rest), Literals(plain[1..]), Tokens(rest));
    }
  }

  lemma EmptyPlain(rest: string)
    ensures "" + rest == rest && Literals("") + Tokens(rest) == Tokens(rest)
  {
  }

  lemma PrependToBoth<T>(x: T, whole: seq<T>, front: seq<T>, back: seq<T>)
    requires whole == front + back
    ensures [x] + whole == [x] + front + back
  {
  }

  lemma PlainFirst(plain: string, rest: string)
    requires plain != "" && NoBraces(plain)
    ensures Tokens(plain + rest) == [Literal(plain[0])] + Tokens(plain[1..] + rest)
    ensures Literals(plain) == [Literal(plain[0])] + Literals(plain[1..]) && NoBraces(plain[1..])
  {
    HeadOf(plain, rest);
    LiteralFirst(plain + rest);
  }

  /** A closing brace is literal where it does not end a placeholder. */
  lemma ClosingTokens(plain: string, rest: string)
    requires NoBraces(plain)
    ensures Tokens(plain + ("}" + rest)) == Literals(plain) + [Literal('}')] + Tokens(rest)
  {
    PlainTokens(plain, "}" + rest);
    LiteralFirst("}" + rest);
    assert ("}" + rest)[1..] == rest;
  }

  lemma OpenIsLiteral(plain: string, rest: string)
    requires NoBraces(plain) && (rest == "" || rest[0] == '{')
    ensures !OpensPlaceholder("{" + (plain + rest)) && ("{" + (plain + rest))[1..] == plain + rest
  {
    var text := "{" + (plain + rest);
    assert text[1..] == plain + rest;
    PlainLengthIs(plain, rest);
    if rest != "" {
      assert (plain + rest)[|plain|] == rest[0];
    }
  }

  /** An opening brace whose next brace opens another pair, or that has no next brace, is literal. */
  lemma OpenTokens(plain: string, rest: string)
    requires NoBraces(plain) && (rest == "" || rest[0] == '{')
    ensures Tokens("{" + (plain + rest)) == [Literal('{')] + Literals(plain) + Tokens(rest)
  {
    OpenIsLiteral(plain, rest);
    LiteralFirst("{" + (plain + rest));
    PlainTokens(plain, rest);
  }

  lemma PairFirst(plain: string, rest: string)
    requires NoBraces(plain)
    ensures var text := "{" + (plain + ("}" + rest));
            && (OpensPlaceholder(text) <==> ParseIndex(plain).Some?)
            && text[1..] == plain + ("}" + rest)
            && (ParseIndex(plain).Some? ==>
                  FirstToken(text) == Placeholder(plain, ParseIndex(plain).value) && AfterFirst(text) == rest)
  {
    var tail := plain + ("}" + rest);
    var text := "{" + tail;
    assert text[1..] == tail && tail[..|plain|] == plain && tail[|plain|] == '}' && tail[|plain| + 1..] == rest;
    PlainLengthIs(plain, "}" + rest);
    assert text[1..|plain| + 1] == tail[..|plain|] && text[|plain| + 2..] == tail[|plain| + 1..];
  }

  /** Two braces with no brace between them are a placeholder exactly if there is an index between them. */
  lemma PairTokens(plain: string, rest: string)
    requires NoBraces(plain)
    ensures Tokens("{" + (plain + ("}" + rest)))
         == (if ParseIndex(plain).Some? then [Placeholder(plain, ParseIndex(plain).value)]
             else [Literal('{')] + Literals(plain) + [Literal('}')]) + Tokens(rest)
  {
    var text := "{" + (plain + ("}" + rest));
    PairFirst(plain, rest);
    if ParseIndex(plain).None? {
      LiteralFirst(text);
      ClosingTokens(plain, rest);
    } else {
      assert Tokens(text) == [FirstToken(text)] + Tokens(AfterFirst(text));
    }
  }

  lemma {:induction false} PlainLengthConcat(s: string, rest: string)
    ensures PlainLength(s + rest) == if PlainLength(s) < |s| then PlainLength(s) else |s| + PlainLength(rest)
  {
    if s == "" {
      assert s + rest == rest;
    } else {
      assert (s + rest)[1..] == s[1..] + rest;
      PlainLengthConcat(s[1..], rest);
    }
  }

  lemma OpensBefore(text: string, rest: string)
    requires text != "" && rest != "" && rest[0] == '{'
    ensures OpensPlaceholder(text + rest) == OpensPlaceholder(text)
    ensures OpensPlaceholder(text) ==> PlainLength((text + rest)[1..]) == PlainLength(text[1..])
  {
    var whole, n := text + rest, PlainLength(text[1..]);
    assert whole[1..] == text[1..] + rest;
    PlainLengthConcat(text[1..], rest);
    if n + 1 < |text| {
      assert whole[1..n + 1] == text[1..n + 1] && whole[n + 1] == text[n + 1];
    } else {
      assert whole[|text|] == rest[0];
    }
  }

  lemma FirstBefore(text: string, rest: string)
    requires text != "" && rest != "" && rest[0] == '{'
    ensures FirstToken(text + rest) == FirstToken(text) && AfterFirst(text + rest) == AfterFirst(text) + rest
  {
    OpensBefore(text, rest);
    var n := if OpensPlaceholder(text) then PlainLength(text[1..]) else 0;
    SlicesBefore(text, rest, n);
  }

  lemma SlicesBefore(text: string, rest: string, n: nat)
    requires n < |text|
    ensures (text + rest)[0] == text[0] && (text + rest)[1..] == text[1..] + rest
    ensures (text + rest)[1..n + 1] == text[1..n + 1]
    ensures n + 2 <= |text| ==> (text + rest)[n + 2..] == text[n + 2..] + rest
  {
  }

  /** No placeholder reaches across an opening brace. */
  lemma {:induction false} TokensSplitAtOpen(text: string, rest: string)
    requires rest != "" && rest[0] == '{'
    ensures Tokens(text + rest) == Tokens(text) + Tokens(rest)
    decreases |text|
  {
    if text == "" {
      assert text + rest == rest;
    } else {
      FirstBefore(text, rest);
      TokensSplitAtOpen(AfterFirst(text), rest);
    }
  }

  /** Every pair of braces around an index is a placeholder, whatever stands before and after it. */
  lemma EveryPairIsPlaceholder(before: string, content: string, after: string)
    requires NoBraces(content) && ParseIndex(content).Some?
    ensures Tokens(before + ("{" + (content + ("}" + after))))
         == Tokens(before) + ([Placeholder(content, ParseIndex(content).value)] + Tokens(after))
  {
    TokensSplitAtOpen(before, "{" + (content + ("}" + after)));
    PairTokens(content, after);
  }

  function SpellOne(t: Token): string {
    match t case Literal(c) => [c] case Placeholder(content, _) => "{" + content + "}"
  }

  function Spell(tokens: seq<Token>): string {
    if tokens == [] then "" else SpellOne(tokens[0]) + Spell(tokens[1..])
  }

  ghost predicate WellFormed(t: Token) {
    t.Placeholder? ==> NoBraces(t.content) && ParseIndex(t.content) == Some(t.index)
  }

  lemma FirstSpells(text: string)
    requires text != ""
    ensures WellFormed(FirstToken(text)) && SpellOne(FirstToken(text)) + AfterFirst(text) == text
  {
    var n := PlainLength(text[1..]);
    PlainLengthMeans(text[1..]);
    assert text[1..][..n] == text[1..n + 1];
    if OpensPlaceholder(text) {
      assert "{" + text[1..n + 1] + "}" + text[n + 2..] == text;
    } else {
      assert [text[0]] + text[1..] == text;
    }
  }

  /** The tokens spell the text, and the placeholders are such pairs. */
  lemma {:induction false} TokensSpellText(text: string)
    ensures Spell(Tokens(text)) == text
    ensures forall t :: t in Tokens(text) ==> WellFormed(t)
    decreases |text|
  {
    if text != "" {
      FirstSpells(text);
      TokensSpellText(AfterFirst(text));
      SpellCons(FirstToken(text), Tokens(AfterFirst(text)));
    }
  }

  lemma SpellCons(t: Token, tokens: seq<Token>)
    ensures Spell([t] + tokens) == SpellOne(t) + Spell(tokens)
  {
    assert ([t] + tokens)[1..] == tokens;
  }

  /** It succeeds exactly if every placeholder has a substitution and every substitution a placeholder. */
  lemma FormatSucceedsIff(text: string, subs: seq<string>)
    ensures Formatted(text, subs).Ok?
       <==> AllInRange(Tokens(text), |subs|) && forall i: nat :: i < |subs| ==> Uses(Tokens(text), i)
  {
    var unused := LowestUnused(Tokens(text), 0, |subs|);
    assert unused.Some? ==> !Uses(Tokens(text), unused.value);
  }

  lemma {:induction false} LiteralsSpell(tokens: seq<Token>, subs: seq<string>)
    requires forall t :: t in tokens ==> t.Literal?
    ensures Expand(tokens, subs) == Spell(tokens)
  {
    if tokens != [] {
      LiteralsSpell(Front(tokens), subs);
      assert tokens == Front(tokens) + [Last(tokens)];
      SpellSnoc(Front(tokens), Last(tokens));
    }
  }

  lemma {:induction false} SpellSnoc(tokens: seq<Token>, t: Token)
    ensures Spell(tokens + [t]) == Spell(tokens) + SpellOne(t)
  {
    if tokens == [] {
      assert [] + [t] == [t] + [];
      SpellCons(t, []);
    } else {
      assert tokens + [t] == [tokens[0]] + (tokens[1..] + [t]);
      SpellCons(tokens[0], tokens[1..] + [t]);
      SpellSnoc(tokens[1..], t);
    }
  }

  /** A text without placeholders stands for itself, so formatting it only complains of the first substitution. */
  lemma NoPlaceholdersVerbatim(text: string, subs: seq<string>)
    requires forall t :: t in Tokens(text) ==> t.Literal?
    ensures Expand(Tokens(text), subs) == text
    ensures Formatted(text, subs) == if subs == [] then Ok(text) else Err(MissingPlaceholder(subs[0], 0))
  {
    LiteralsSpell(Tokens(text), subs);
    TokensSpellText(text);
    assert !Uses(Tokens(text), 0);
  }

  // ---------- the streaming automaton ----------

  ghost predicate AreSlices(slices: seq<string>) {
    forall i :: 0 <= i < |slices| ==>
      slices[i] != "" && NoBraces(Front(slices[i])) && (i < |slices| - 1 ==> IsBrace(Last(slices[i])))
  }

  /** str::split_inclusive: every part but perhaps the last ends in its only brace. */
  function SplitInclusive(text: string): (r: seq<string>)
    ensures AreSlices(r)
    decreases |text|
  {
    if text == "" then []
    else
      var n := PlainLength(text);
      PlainLengthMeans(text);
      if n == |text| then
        assert text[..n] == text;
        [text]
      else
        assert Front(text[..n + 1]) == text[..n];
        [text[..n + 1]] + SplitInclusive(text[n + 1..])
  }

  function Concat(parts: seq<string>): string {
    if parts == [] then "" else parts[0] + Concat(parts[1..])
  }

  lemma {:induction false} ConcatSplit(text: string)
    ensures Concat(SplitInclusive(text)) == text
    decreases |text|
  {
    if text != "" {
      var n, parts := PlainLength(text), SplitInclusive(text);
      if n == |text| {
        assert text[..n] == text && parts == [text] && parts[1..] == [] && text + "" == text;
      } else {
        assert parts[1..] == SplitInclusive(text[n + 1..]);
        ConcatSplit(text[n + 1..]);
        assert text[..n + 1] + text[n + 1..] == text;
      }
    }
  }

  function Unused(tokens: seq<Token>, n: nat): set<nat> {
    set i: nat | i < n && !Uses(tokens, i)
  }

  /** The tokens read so far, what they expand to, and the tokens of the text that is still to be read. */
  ghost predicate Read(tokens: seq<Token>, subs: seq<string>, done: seq<Token>, newText: string, unused: set<nat>,
                       remaining: seq<Token>) {
    && tokens == done + remaining
    && newText == Expand(done, subs)
    && AllInRange(done, |subs|)
    && unused == Unused(done, |subs|)
  }

  lemma {:induction false} ExpandLiterals(done: seq<Token>, s: string, subs: seq<string>)
    ensures Expand(done + Literals(s), subs) == Expand(done, subs) + s
  {
    if s == "" {
      assert done + Literals(s) == done;
    } else {
      ExpandLiterals(done, Front(s), subs);
      assert done + Literals(s) == done + Literals(Front(s)) + [Literal(Last(s))];
      AppendedIs(done + Literals(Front(s)), Literal(Last(s)));
      assert Front(s) + [Last(s)] == s;
    }
  }

  lemma ReadLiterals(tokens: seq<Token>, subs: seq<string>, done: seq<Token>, newText: string, unused: set<nat>,
                     remaining: seq<Token>, s: string, rest: seq<Token>)
    requires Read(tokens, subs, done, newText, unused, remaining) && remaining == Literals(s) + rest
    ensures Read(tokens, subs, done + Literals(s), newText + s, unused, rest)
  {
    ExpandLiterals(done, s, subs);
    assert done + (Literals(s) + rest) == done + Literals(s) + rest;
    UsesLiterals(done, s, |subs|);
  }

  lemma UsesLiterals(done: seq<Token>, s: string, n: nat)
    ensures Unused(done + Literals(s), n) == Unused(done, n)
    ensures AllInRange(done, n) ==> AllInRange(done + Literals(s), n)
  {
    forall i: nat
      ensures Uses(done + Literals(s), i) == Uses(done, i)
    {
      if Uses(done, i) {
        var t :| t in done && t.Placeholder? && t.index == i;
        assert t in done + Literals(s);
      }
    }
  }

  lemma ReadPlaceholder(tokens: seq<Token>, subs: seq<string>, done: seq<Token>, newText: string, unused: set<nat>,
                        remaining: seq<Token>, t: Token, rest: seq<Token>)
    requires Read(tokens, subs, done, newText, unused, remaining) && remaining == [t] + rest && t.Placeholder?
    ensures t.index < |subs| ==> Read(tokens, subs, done + [t], newText + subs[t.index], unused - {t.index}, rest)
    ensures t.index >= |subs| ==> FirstOutOfRange(tokens, |subs|) == Some(t)
  {
    assert done + ([t] + rest) == done + [t] + rest;
    if t.index < |subs| {
      AppendedIs(done, t);
      UsesPlaceholder(done, t, |subs|);
    } else {
      FirstOutOfRangeAfter(done, [t] + rest, |subs|);
    }
  }

  lemma UsesPlaceholder(done: seq<Token>, t: Token, n: nat)
    requires t.Placeholder?
    ensures Unused(done + [t], n) == Unused(done, n) - {t.index}
    ensures AllInRange(done, n) && t.index < n ==> AllInRange(done + [t], n)
  {
    forall i: nat
      ensures Uses(done + [t], i) <==> Uses(done, i) || i == t.index
    {
      if Uses(done, i) {
        var u :| u in done && u.Placeholder? && u.index == i;
        assert u in done + [t];
      }
      if i == t.index {
        assert t in done + [t];
      }
    }
  }

  lemma {:induction false} FirstOutOfRangeAfter(done: seq<Token>, rest: seq<Token>, n: nat)
    requires AllInRange(done, n)
    ensures FirstOutOfRange(done + rest, n) == FirstOutOfRange(rest, n)
  {
    if done == [] {
      assert done + rest == rest;
    } else {
      assert done[0] in done && (done + rest)[1..] == done[1..] + rest;
      FirstOutOfRangeAfter(done[1..], rest, n);
    }
  }

  /** BTreeSet::first of a set of numbers below n. */
  function First(s: set<nat>, k: nat, n: nat): Option<nat>
    requires k <= n
    decreases n - k
  {
    if k == n then None else if k in s then Some(k) else First(s, k + 1, n)
  }

  lemma {:induction false} FirstIsLowestUnused(tokens: seq<Token>, k: nat, n: nat)
    requires k <= n
    ensures First(Unused(tokens, n), k, n) == LowestUnused(tokens, k, n)
    decreases n - k
  {
    if k < n {
      FirstIsLowestUnused(tokens, k + 1, n);
    }
  }

  /** An opening brace that has been read but may yet turn out to be literal. */
  function Pending(maybeInPlaceholder: bool): string {
    if maybeInPlaceholder then "{" else ""
  }

  /** The tokens that the automaton reads from the slices from the k-th on. */
  function SliceTokens(slices: seq<string>, k: nat, pending: bool): seq<Token>
    requires k <= |slices| && forall i :: 0 <= i < |slices| ==> slices[i] != ""
    decreases |slices| - k
  {
    if k == |slices| then Literals(Pending(pending))
    else
      var slice, prefix := slices[k], Front(slices[k]);
      if Last(slice) == '{' then Literals(Pending(pending) + prefix) + SliceTokens(slices, k + 1, true)
      else if Last(slice) == '}' && pending && ParseIndex(prefix).Some? then
        [Placeholder(prefix, ParseIndex(prefix).value)] + SliceTokens(slices, k + 1, false)
      else Literals(Pending(pending) + slice) + SliceTokens(slices, k + 1, false)
  }

  lemma OpenStep(pending: bool, prefix: string, rest: string)
    requires NoBraces(prefix)
    ensures Tokens(Pending(pending) + (prefix + "{" + rest)) == Literals(Pending(pending) + prefix) + Tokens("{" + rest)
  {
    assert prefix + "{" + rest == prefix + ("{" + rest);
    if pending {
      OpenTokens(prefix, "{" + rest);
      HeadOf("{" + prefix, "");
      assert ("{" + prefix)[1..] == prefix;
    } else {
      PlainTokens(prefix, "{" + rest);
      NothingBefore(prefix + ("{" + rest));
      NothingBefore(prefix);
    }
  }

  lemma NothingBefore(s: string)
    ensures Pending(false) + s == s
  {
  }

  lemma PairLiterals(prefix: string)
    ensures Literals("{" + (prefix + "}")) == [Literal('{')] + Literals(prefix) + [Literal('}')]
    ensures Literals("" + (prefix + "}")) == Literals(prefix) + [Literal('}')]
  {
  }

  lemma RegroupClosing(prefix: string, rest: string)
    ensures prefix + "}" + rest == prefix + ("}" + rest)
    ensures "" + (prefix + "}" + rest) == prefix + ("}" + rest)
  {
  }

  lemma PairStep(prefix: string, rest: string)
    requires NoBraces(prefix)
    ensures Tokens("{" + (prefix + "}" + rest))
         == (if ParseIndex(prefix).Some? then [Placeholder(prefix, ParseIndex(prefix).value)]
             else Literals("{" + (prefix + "}")))
            + Tokens(rest)
  {
    RegroupClosing(prefix, rest);
    PairLiterals(prefix);
    PairTokens(prefix, rest);
  }

  lemma CloseStep(prefix: string, rest: string)
    requires NoBraces(prefix)
    ensures Tokens("" + (prefix + "}" + rest)) == Literals("" + (prefix + "}")) + Tokens(rest)
  {
    RegroupClosing(prefix, rest);
    PairLiterals(prefix);
    ClosingTokens(prefix, rest);
  }

  lemma LastStep(pending: bool, slice: string)
    requires NoBraces(slice)
    ensures Tokens(Pending(pending) + slice) == Literals(Pending(pending) + slice)
  {
    assert slice + "" == slice;
    if pending {
      OpenTokens(slice, "");
      assert Literals("{" + slice) == [Literal('{')] + Literals(slice);
    } else {
      assert "" + slice == slice;
      PlainTokens(slice, "");
    }
  }

  lemma NoBracesWhole(slice: string)
    requires slice != "" && NoBraces(Front(slice)) && !IsBrace(Last(slice))
    ensures NoBraces(slice)
  {
    assert forall i :: 0 <= i < |slice| - 1 ==> slice[i] == Front(slice)[i];
  }

  lemma SliceStep(pending: bool, slice: string, rest: string)
    requires slice != "" && NoBraces(Front(slice)) && (rest != "" ==> IsBrace(Last(slice)))
    ensures Tokens(Pending(pending) + (slice + rest))
         == if Last(slice) == '{' then Literals(Pending(pending) + Front(slice)) + Tokens("{" + rest)
            else if Last(slice) == '}' && pending && ParseIndex(Front(slice)).Some? then
              [Placeholder(Front(slice), ParseIndex(Front(slice)).value)] + Tokens(rest)
            else Literals(Pending(pending) + slice) + Tokens(rest)
  {
    var prefix := Front(slice);
    assert slice == prefix + [Last(slice)];
    if Last(slice) == '{' {
      OpenStep(pending, prefix, rest);
    } else if Last(slice) == '}' {
      if pending {
        PairStep(prefix, rest);
      } else {
        CloseStep(prefix, rest);
      }
    } else {
      NoBracesWhole(slice);
      LastStep(pending, slice);
      assert slice + rest == slice;
    }
  }

  /** The slices hold the tokens of the text that they make up. */
  lemma {:induction false} SliceTokensAre(slices: seq<string>, k: nat, pending: bool)
    requires AreSlices(slices) && k <= |slices|
    ensures SliceTokens(slices, k, pending) == Tokens(Pending(pending) + Concat(slices[k..]))
    decreases |slices| - k
  {
    if k == |slices| {
      assert Pending(pending) + "" == Pending(pending);
      LastStep(pending, "");
    } else {
      var slice, rest := slices[k], Concat(slices[k + 1..]);
      assert slices[k..][1..] == slices[k + 1..];
      SliceStep(pending, slice, rest);
      SliceTokensAre(slices, k + 1, true);
      SliceTokensAre(slices, k + 1, false);
      assert Pending(false) + rest == rest;
    }
  }

  lemma SplitHoldsTokens(text: string)
    ensures SliceTokens(SplitInclusive(text), 0, false) == Tokens(text)
  {
    var slices := SplitInclusive(text);
    SliceTokensAre(slices, 0, false);
    ConcatSplit(text);
    assert slices[0..] == slices && Pending(false) + text == text;
  }

  lemma FinishReading(text: string, subs: seq<string>, done: seq<Token>, newText: string, unused: set<nat>)
    requires Read(Tokens(text), subs, done, newText, unused, [])
    ensures var first := First(unused, 0, |subs|);
            Formatted(text, subs)
            == if first.Some? && first.value < |subs| then Err(MissingPlaceholder(subs[first.value], first.value))
                                     else Ok(newText)
  {
    assert done + [] == done;
    FirstIsLowestUnused(Tokens(text), 0, |subs|);
  }

  /** One step of the automaton. */
  method ReadSlice(slice: string, subs: seq<string>, newText: string, maybeInPlaceholder: bool, unused: set<nat>,
                   ghost tokens: seq<Token>, ghost done: seq<Token>, ghost slices: seq<string>, ghost k: nat)
    returns (error: Option<FormatError>, text: string, pending: bool, stillUnused: set<nat>, ghost read: seq<Token>)
    requires k < |slices| && slice == slices[k] && forall i :: 0 <= i < |slices| ==> slices[i] != ""
    requires Read(tokens, subs, done, newText, unused, SliceTokens(slices, k, maybeInPlaceholder))
    ensures error.None? ==> Read(tokens, subs, read, text, stillUnused, SliceTokens(slices, k + 1, pending))
    ensures error.Some? ==>
              var missing := FirstOutOfRange(tokens, |subs|);
              missing.Some? && error.value == MissingSubstitution("{" + missing.value.content + "}")
  {
    var prefix := Front(slice);
    ghost var current := SliceTokens(slices, k, maybeInPlaceholder);
    ghost var literal := Pending(maybeInPlaceholder) + if Last(slice) == '{' then prefix else slice;
    error, stillUnused := None, unused;
    if Last(slice) == '}' && maybeInPlaceholder && ParseIndex(prefix).Some? {
      var subIndex := ParseIndex(prefix).value;
      read := done + [Placeholder(prefix, subIndex)];
      ReadPlaceholder(tokens, subs, done, newText, unused, current, Placeholder(prefix, subIndex),
                      SliceTokens(slices, k + 1, false));
      if subIndex >= |subs| {
        return Some(MissingSubstitution("{" + prefix + "}")), newText, false, unused, read;
      }
      text := newText + subs[subIndex];
      stillUnused := unused - {subIndex};
      pending := false;
    } else {
      pending := Last(slice) == '{';
      ReadLiterals(tokens, subs, done, newText, unused, current, literal, SliceTokens(slices, k + 1, pending));
      read := done + Literals(literal);
      text := AddLiteral(newText, slice, maybeInPlaceholder);
    }
  }

  /** A slice that ends no placeholder. Its opening brace is added with the next slice, as it may open one. */
  method AddLiteral(newText: string, slice: string, maybeInPlaceholder: bool) returns (text: string)
    requires slice != ""
    ensures text == newText + (Pending(maybeInPlaceholder) + if Last(slice) == '{' then Front(slice) else slice)
  {
    var prefix := Front(slice);
    assert slice == prefix + [Last(slice)];
    if Last(slice) == '{' {
      if maybeInPlaceholder {
        if prefix == "" {
          text := newText + slice;
        } else {
          text := newText + "{";
          text := text + prefix;
        }
      } else {
        text := newText + prefix;
      }
    } else {
      text := newText;
      if maybeInPlaceholder {
        text := text + "{";
      }
      text := text + slice;
    }
  }

  method Format(text: string, subs: seq<string>) returns (r: Result<string, FormatError>)
    ensures r == Formatted(text, subs)
  {
    var unusedSubIndexes: set<nat> := {};
    for i := 0 to |subs|
      invariant unusedSubIndexes == Unused([], i)
    {
      unusedSubIndexes := unusedSubIndexes + {i};
    }

    var newText, maybeInPlaceholder := "", false;
    var slices := SplitInclusive(text);
    ghost var tokens, done: seq<Token> := Tokens(text), [];
    SplitHoldsTokens(text);
    for k := 0 to |slices|
      invariant Read(tokens, subs, done, newText, unusedSubIndexes, SliceTokens(slices, k, maybeInPlaceholder))
    {
      var error;
      error, newText, maybeInPlaceholder, unusedSubIndexes, done :=
        ReadSlice(slices[k], subs, newText, maybeInPlaceholder, unusedSubIndexes, tokens, done, slices, k);
      if error.Some? {
        return Err(error.value);
      }
    }

    ghost var end := Pending(maybeInPlaceholder);
    ReadLiterals(tokens, subs, done, newText, unusedSubIndexes, Literals(end), end, []);
    FinishReading(text, subs, done + Literals(end), newText + end, unusedSubIndexes);
    assert newText + "" == newText;
    if maybeInPlaceholder {
      newText := newText + "{";
    }

    var first := First(unusedSubIndexes, 0, |subs|);
    if first.Some? && first.value < |subs| {
      r := Err(MissingPlaceholder(subs[first.value], first.value));
    } else {
      r := Ok(newText);
    }
  }

  // ---------- texts with one placeholder ----------

  lemma {:induction false} ExpandConcat(a: seq<Token>, b: seq<Token>, subs: seq<string>)
    ensures Expand(a + b, subs) == Expand(a, subs) + Expand(b, subs)
  {
    if b == [] {
      NothingToExpand(a, subs);
    } else {
      ExpandConcat(a, Front(b), subs);
      ExpandLast(a, b, subs);
    }
  }

  lemma NothingToExpand(a: seq<Token>, subs: seq<string>)
    ensures Expand(a + [], subs) == Expand(a, subs) + Expand([], subs)
  {
    assert a + [] == a;
  }

  lemma ExpandLast(a: seq<Token>, b: seq<Token>, subs: seq<string>)
    requires b != [] && Expand(a + Front(b), subs) == Expand(a, subs) + Expand(Front(b), subs)
    ensures Expand(a + b, subs) == Expand(a, subs) + Expand(b, subs)
  {
    var last := match Last(b)
                case Literal(c) => [c]
                case Placeholder(_, index) => if index < |subs| then subs[index] else "";
    assert Front(a + b) == a + Front(b) && Last(a + b) == Last(b);
    Regroup(Expand(a, subs), Expand(Front(b), subs), last);
  }

  lemma OnePlaceholder(content: string, index: nat, subs: seq<string>)
    requires index < |subs|
    ensures Expand([Placeholder(content, index)], subs) == subs[index]
  {
    var t := Placeholder(content, index);
    assert Front([t]) == [] && Last([t]) == t;
    assert Expand([], subs) == "" && "" + subs[index] == subs[index];
  }

  /** Between any two texts, the numeral of an index in braces stands for the substitution with that index. */
  lemma NumeralExpands(before: string, index: nat, after: string, subs: seq<string>)
    requires index < 0x1_0000_0000_0000_0000 && index < |subs|
    ensures Expand(Tokens(before + ("{" + (Numeral(index) + ("}" + after)))), subs)
         == Expand(Tokens(before), subs) + (subs[index] + Expand(Tokens(after), subs))
  {
    var t := Placeholder(Numeral(index), index);
    NumeralParses(index);
    EveryPairIsPlaceholder(before, Numeral(index), after);
    ExpandConcat(Tokens(before), [t] + Tokens(after), subs);
    ExpandConcat([t], Tokens(after), subs);
    OnePlaceholder(Numeral(index), index, subs);
  }

  lemma PlainExpands(plain: string, subs: seq<string>)
    requires NoBraces(plain)
    ensures Tokens(plain) == Literals(plain) && Expand(Tokens(plain), subs) == plain
  {
    PlainTokens(plain, "");
    assert plain + "" == plain && Literals(plain) + [] == Literals(plain);
    ExpandLiterals([], plain, subs);
    assert [] + Literals(plain) == Literals(plain) && "" + plain == plain;
  }

  /** Formatting a text with one placeholder puts its substitution between the literals, if that is the only one. A
      placeholder that is out of range, or else the first substitution that is not used, is an error. */
  lemma FormatsOnePlaceholder(before: string, index: nat, after: string, subs: seq<string>)
    requires NoBraces(before) && NoBraces(after) && index < 0x1_0000_0000_0000_0000
    ensures Formatted(before + ("{" + (Numeral(index) + ("}" + after))), subs)
         == if index >= |subs| then Err(MissingSubstitution("{" + Numeral(index) + "}"))
            else if |subs| == 1 then Ok(before + (subs[index] + after))
            else if index == 0 then Err(MissingPlaceholder(subs[1], 1))
            else Err(MissingPlaceholder(subs[0], 0))
  {
    var t := Placeholder(Numeral(index), index);
    var tokens := Tokens(before + ("{" + (Numeral(index) + ("}" + after))));
    NumeralParses(index);
    EveryPairIsPlaceholder(before, Numeral(index), after);
    PlainExpands(before, subs);
    PlainExpands(after, subs);
    OnlyPlaceholder(Literals(before), t, Literals(after), |subs|);
    if index < |subs| {
      NumeralExpands(before, index, after, subs);
    }
  }

  lemma OnlyPlaceholder(a: seq<Token>, t: Token, b: seq<Token>, n: nat)
    requires t.Placeholder? && (forall u :: u in a ==> u.Literal?) && (forall u :: u in b ==> u.Literal?)
    ensures var tokens := a + ([t] + b);
            && FirstOutOfRange(tokens, n) == (if t.index < n then None else Some(t))
            && LowestUnused(tokens, 0, n)
               == if n == 0 || (n == 1 && t.index == 0) then None else if t.index == 0 then Some(1) else Some(0)
  {
    var tokens := a + ([t] + b);
    assert t in tokens;
    forall i
      ensures Uses(tokens, i) <==> i == t.index
    {
    }
    assert forall u :: u in tokens && u.Placeholder? ==> u == t;
    if t.index != 0 {
      LowestIs(tokens, 0, n);
    } else {
      LowestIs(tokens, 1, n);
    }
  }

  lemma LowestIs(tokens: seq<Token>, i: nat, n: nat)
    requires !Uses(tokens, i) && forall j: nat :: j < i ==> Uses(tokens, j)
    ensures LowestUnused(tokens, 0, n) == if i < n then Some(i) else None
  {
    var r := LowestUnused(tokens, 0, n);
    assert r.Some? ==> r.value >= i;
  }
}
