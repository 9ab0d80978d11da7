/** Shell-style globs over tool names, and the anchored regular expression they are compiled to. */
module Glob {
  import opened Prelude

  // ---- What a glob means ----

  /** What one glob character may stand for. */
  predicate Fits(g: char, piece: string) {
    if g == '*' then '\n' !in piece
    else if g == '?' then |piece| == 1 && piece[0] != '\n'
    else piece == [g]
  }

  function Concat(pieces: seq<string>): string {
    if pieces == [] then "" else pieces[0] + Concat(pieces[1..])
  }

  ghost predicate Spells(glob: string, name: string, pieces: seq<string>) {
    |pieces| == |glob| && Concat(pieces) == name && forall i :: 0 <= i < |glob| ==> Fits(glob[i], pieces[i])
  }

  /** The name can be cut into pieces, one per glob character, each of which that character may stand for. */
  ghost predicate Accepts(glob: string, name: string) {
    exists pieces: seq<string> :: Spells(glob, name, pieces)
  }

  // ---- The regular expression text ----

  predicate IsMeta(c: char) {
    c in "\\.+*?()|[]{}^$#&-~"
  }

  /** A literal run with every meta character escaped. */
  function Escape(literal: string): string {
    if literal == "" then "" else Escape(literal[..|literal| - 1]) + EscapeChar(literal[|literal| - 1])
  }

  function EscapeChar(c: char): string {
    if IsMeta(c) then ['\\', c] else [c]
  }

  /** What one glob character is translated to. */
  function Translate(g: char): string {
    if g == '*' then ".*" else if g == '?' then "." else EscapeChar(g)
  }

  function Body(glob: string): string {
    if glob == "" then "" else Translate(glob[0]) + Body(glob[1..])
  }

  function Compiled(glob: string): string {
    "^" + Body(glob) + "$"
  }

  lemma {:induction false} BodySnoc(glob: string, g: char)
    ensures Body(glob + [g]) == Body(glob) + Translate(g)
  {
    if glob == "" {
      assert ("" + [g])[1..] == "";
    } else {
      assert (glob + [g])[1..] == glob[1..] + [g];
      BodySnoc(glob[1..], g);
    }
  }

  lemma EscapeSnoc(literal: string, c: char)
    ensures Escape(literal + [c]) == Escape(literal) + EscapeChar(c)
  {
    assert (literal + [c])[..|literal|] == literal;
  }

  function Flushed(literal: string, regex: string): string {
    if literal == "" then regex else regex + Escape(literal)
  }

  /** The text written so far, with the pending literal run still to be escaped. */
  predicate Written(regex: string, literal: string, glob: string) {
    regex + Escape(literal) == "^" + Body(glob)
  }

  lemma WildcardWritten(regex: string, literal: string, glob: string, g: char)
    requires Written(regex, literal, glob) && (g == '*' || g == '?')
    ensures Written(Flushed(literal, regex) + Translate(g), "", glob + [g])
  {
    BodySnoc(glob, g);
    assert Flushed(literal, regex) == "^" + Body(glob);
  }

  lemma LiteralWritten(regex: string, literal: string, glob: string, g: char)
    requires Written(regex, literal, glob) && g != '*' && g != '?'
    ensures Written(regex, literal + [g], glob + [g])
  {
    BodySnoc(glob, g);
    EscapeSnoc(literal, g);
    Associates(regex, Escape(literal), EscapeChar(g));
    Associates("^", Body(glob), EscapeChar(g));
  }

  lemma Associates(a: string, b: string, c: string)
    ensures a + (b + c) == (a + b) + c
  {
  }

  /** The loop that collects literal runs and escapes each run at once. */
  method GlobToRegex(glob: string) returns (regex: string)
    ensures regex == Compiled(glob)
  {
    regex := "^";
    var literal := "";
    var i := 0;
    while i < |glob|
      invariant 0 <= i <= |glob| && Written(regex, literal, glob[..i])
    {
      var g := glob[i];
      assert glob[..i + 1] == glob[..i] + [g];
      if g == '*' {
        WildcardWritten(regex, literal, glob[..i], g);
        regex, literal := Flushed(literal, regex) + ".*", "";
      } else if g == '?' {
        WildcardWritten(regex, literal, glob[..i], g);
        regex, literal := Flushed(literal, regex) + ".", "";
      } else {
        LiteralWritten(regex, literal, glob[..i], g);
        literal := literal + [g];
      }
      i := i + 1;
    }
    assert glob[..i] == glob;
    regex := Flushed(literal, regex) + "$";
  }

  // ---- Reading the text back ----

  datatype Token = Begin | End | Literal(c: char) | AnyChar | AnyRun

  /** The part of the regular-expression syntax the translation uses; anything else is not read. */
  function Parse(text: string): Option<seq<Token>>
    decreases |text|
  {
    if text == "" then Some([])
    else if text[0] == '^' then Prepend(Begin, Parse(text[1..]))
    else if text[0] == '$' then Prepend(End, Parse(text[1..]))
    else if text[0] == '\\' then
      if |text| > 1 && IsMeta(text[1]) then Prepend(Literal(text[1]), Parse(text[2..])) else None
    else if text[0] == '.' then
      if |text| > 1 && text[1] == '*' then Prepend(AnyRun, Parse(text[2..])) else Prepend(AnyChar, Parse(text[1..]))
    else if IsMeta(text[0]) then None
    else Prepend(Literal(text[0]), Parse(text[1..]))
  }

  function Prepend(t: Token, rest: Option<seq<Token>>): Option<seq<Token>> {
    if rest.None? then None else Some([t] + rest.value)
  }

  function TokenOf(g: char): Token {
    if g == '*' then AnyRun else if g == '?' then AnyChar else Literal(g)
  }

  function Tokens(glob: string): seq<Token> {
    if glob == "" then [End] else [TokenOf(glob[0])] + Tokens(glob[1..])
  }

  /** A repetition sign never follows by accident. */
  lemma NeverStartsWithStar(glob: string)
    ensures (Body(glob) + "$")[0] != '*'
  {
  }

  /** What one translated character reads back as. */
  lemma ParseTranslated(g: char, rest: string)
    requires rest != "" && rest[0] != '*'
    ensures Parse(Translate(g) + rest) == Prepend(TokenOf(g), Parse(rest))
  {
    var text := Translate(g) + rest;
    assert text[|Translate(g)|..] == rest;
  }

  lemma {:induction false} ParseBody(glob: string)
    ensures Parse(Body(glob) + "$") == Some(Tokens(glob))
  {
    if glob == "" {
      assert Body(glob) + "$" == "$" && "$"[1..] == "";
      assert [End] + [] == [End];
    } else {
      ParseBody(glob[1..]);
      NeverStartsWithStar(glob[1..]);
      ParseTranslated(glob[0], Body(glob[1..]) + "$");
      assert Body(glob) + "$" == Translate(glob[0]) + (Body(glob[1..]) + "$");
    }
  }

  lemma CompiledParses(glob: string)
    ensures Parse(Compiled(glob)) == Some([Begin] + Tokens(glob))
  {
    ParseBody(glob);
    assert Compiled(glob)[1..] == Body(glob) + "$";
  }

  // ---- Matching ----

  /** Whether the tokens match some stretch of the text that starts at this position. */
  predicate MatchesAt(tokens: seq<Token>, text: string, at: nat)
    requires at <= |text|
    decreases |tokens|, |text| - at
  {
    if tokens == [] then true
    else
      var rest := tokens[1..];
      match tokens[0]
      case Begin => at == 0 && MatchesAt(rest, text, at)
      case End => at == |text| && MatchesAt(rest, text, at)
      case Literal(c) => at < |text| && text[at] == c && MatchesAt(rest, text, at + 1)
      case AnyChar => at < |text| && text[at] != '\n' && MatchesAt(rest, text, at + 1)
      case AnyRun => MatchesAt(rest, text, at) || (at < |text| && text[at] != '\n' && MatchesAt(tokens, text, at + 1))
  }

  /** The unanchored search a compiled expression is used for. */
  predicate IsMatch(tokens: seq<Token>, text: string) {
    exists at :: 0 <= at <= |text| && MatchesAt(tokens, text, at)
  }

  // ---- The two meanings agree ----

  lemma {:induction false} AcceptsNothing(name: string)
    ensures Accepts("", name) <==> name == ""
  {
    if name == "" {
      assert Spells("", "", []);
    }
  }

  /** A glob accepts a name exactly when some beginning of it fits the first character and the rest is accepted. */
  lemma AcceptsCut(glob: string, name: string, k: nat)
    requires glob != "" && k <= |name| && Fits(glob[0], name[..k]) && Accepts(glob[1..], name[k..])
    ensures Accepts(glob, name)
  {
    var pieces: seq<string> :| Spells(glob[1..], name[k..], pieces);
    var all := [name[..k]] + pieces;
    assert all[1..] == pieces;
    assert forall i :: 1 <= i < |glob| ==> all[i] == pieces[i - 1] && glob[i] == glob[1..][i - 1];
    assert Spells(glob, name, all);
  }

  lemma CutOf(glob: string, name: string) returns (k: nat)
    requires glob != "" && Accepts(glob, name)
    ensures k <= |name| && Fits(glob[0], name[..k]) && Accepts(glob[1..], name[k..])
  {
    var pieces: seq<string> :| Spells(glob, name, pieces);
    k := |pieces[0]|;
    assert name[..k] == pieces[0] && name[k..] == Concat(pieces[1..]);
    assert Spells(glob[1..], name[k..], pieces[1..]);
  }

  lemma AcceptsOne(glob: string, name: string)
    requires glob != "" && glob[0] != '*'
    ensures Accepts(glob, name) <==> name != "" && Fits(glob[0], name[..1]) && Accepts(glob[1..], name[1..])
  {
    if Accepts(glob, name) {
      var k := CutOf(glob, name);
    }
    if name != "" && Fits(glob[0], name[..1]) && Accepts(glob[1..], name[1..]) {
      AcceptsCut(glob, name, 1);
    }
  }

  lemma AcceptsRun(glob: string, name: string)
    requires glob != "" && glob[0] == '*'
    ensures Accepts(glob, name)
       <==> Accepts(glob[1..], name) || (name != "" && name[0] != '\n' && Accepts(glob, name[1..]))
  {
    assert name[0..] == name;
    if Accepts(glob, name) {
      var k := CutOf(glob, name);
      if k > 0 {
        assert name[1..][..k - 1] == name[..k][1..] && name[1..][k - 1..] == name[k..];
        assert name[0] == name[..k][0];
        AcceptsCut(glob, name[1..], k - 1);
      }
    }
    if Accepts(glob[1..], name) {
      AcceptsCut(glob, name, 0);
    }
    if name != "" && name[0] != '\n' && Accepts(glob, name[1..]) {
      var k := CutOf(glob, name[1..]);
      assert name[..k + 1] == [name[0]] + name[1..][..k] && name[k + 1..] == name[1..][k..];
      AcceptsCut(glob, name, k + 1);
    }
  }

  lemma {:induction false} MatchIsAcceptance(glob: string, name: string, at: nat)
    requires at <= |name|
    ensures MatchesAt(Tokens(glob), name, at) <==> Accepts(glob, name[at..])
    decreases |glob|, |name| - at
  {
    var s := name[at..];
    if glob == "" {
      AcceptsNothing(s);
    } else {
      assert Tokens(glob)[1..] == Tokens(glob[1..]);
      if at < |name| {
        assert s[1..] == name[at + 1..] && s[..1] == [name[at]];
      }
      if glob[0] == '*' {
        AcceptsRun(glob, s);
        MatchIsAcceptance(glob[1..], name, at);
        if at < |name| { MatchIsAcceptance(glob, name, at + 1); }
      } else {
        AcceptsOne(glob, s);
        if at < |name| { MatchIsAcceptance(glob[1..], name, at + 1); }
      }
    }
  }

  /** Compiling keeps the meaning: the anchored expression is well formed and matches exactly the accepted names. */
  lemma CompilationPreservesMeaning(glob: string, name: string)
    ensures var tokens := Parse(Compiled(glob));
      tokens.Some? && (IsMatch(tokens.value, name) <==> Accepts(glob, name))
  {
    CompiledParses(glob);
    var tokens := [Begin] + Tokens(glob);
    assert tokens[1..] == Tokens(glob);
    assert name[0..] == name;
    MatchIsAcceptance(glob, name, 0);
    assert MatchesAt(tokens, name, 0) <==> Accepts(glob, name);
  }
}
