/** Path templates: the validating scanner, the compiling scanner, the regular expression
    text between them, and what it matches
    (tesseract-proxy/internal/profile/validate.go, `validatePath`;
    tesseract-proxy/internal/profile/router.go, `compilePathTemplate`). */
module PathTemplate {
  import opened Options
  import opened Text

  /** What a scanner cuts off: one byte, or a whole placeholder with its braces. */
  datatype Piece = Literal(c: char) | Placeholder(name: string)

  /** What the compiled expression consists of: one character, or `[^/]+`. */
  datatype Token = Char(c: char) | Gap

  // ----- the template grammar -----

  predicate IsLetter(c: char) {
    'a' <= c <= 'z' || 'A' <= c <= 'Z'
  }

  predicate IsValidPathByte(c: char) {
    IsLetter(c) || IsDigit(c) || c == '/' || c == '-' || c == '_' || c == '.' || c == '~'
  }

  predicate IsValidVarName(s: string) {
    && s != ""
    && !IsDigit(s[0])
    && forall k :: 0 <= k < |s| ==> IsLetter(s[k]) || IsDigit(s[k]) || s[k] == '_'
  }

  predicate IsValidPiece(piece: Piece) {
    match piece
    case Literal(c) => IsValidPathByte(c)
    case Placeholder(name) => IsValidVarName(name)
  }

  function PieceText(piece: Piece): string {
    match piece
    case Literal(c) => [c]
    case Placeholder(name) => "{" + name + "}"
  }

  function TextOf(pieces: seq<Piece>): string {
    if pieces == [] then "" else PieceText(pieces[0]) + TextOf(pieces[1..])
  }

  ghost predicate SpelledBy(s: string, pieces: seq<Piece>) {
    TextOf(pieces) == s && forall k :: 0 <= k < |pieces| ==> IsValidPiece(pieces[k])
  }

  // ----- the classes of the written rule: [A-Za-z0-9_.~/-] outside braces, [A-Za-z_][A-Za-z0-9_]* inside -----

  const LOWER := {'a', 'b', 'c', 'd', 'e', 'f', 'g', 'h', 'i', 'j', 'k', 'l', 'm',
                  'n', 'o', 'p', 'q', 'r', 's', 't', 'u', 'v', 'w', 'x', 'y', 'z'}
  const UPPER := {'A', 'B', 'C', 'D', 'E', 'F', 'G', 'H', 'I', 'J', 'K', 'L', 'M',
                  'N', 'O', 'P', 'Q', 'R', 'S', 'T', 'U', 'V', 'W', 'X', 'Y', 'Z'}
  const DIGITS := {'0', '1', '2', '3', '4', '5', '6', '7', '8', '9'}

  /** A piece of the written rule. */
  predicate IsRulePiece(piece: Piece) {
    match piece
    case Literal(c) => c in LOWER + UPPER + DIGITS + {'_', '.', '~', '/', '-'}
    case Placeholder(name) =>
      && name != "" && name[0] in LOWER + UPPER + {'_'}
      && forall k :: 0 <= k < |name| ==> name[k] in LOWER + UPPER + DIGITS + {'_'}
  }

  lemma ClassOf(c: char)
    ensures c in LOWER <==> 'a' <= c <= 'z'
    ensures c in UPPER <==> 'A' <= c <= 'Z'
    ensures c in DIGITS <==> IsDigit(c)
  {
  }

  lemma ValidIsRulePiece(piece: Piece)
    ensures IsValidPiece(piece) <==> IsRulePiece(piece)
  {
    forall c ensures (c in LOWER <==> 'a' <= c <= 'z') && (c in UPPER <==> 'A' <= c <= 'Z') && (c in DIGITS <==> IsDigit(c)) {
      ClassOf(c);
    }
    hide LOWER, UPPER, DIGITS;
  }

  // ----- the two scanners, each by its own rules -----

  /** How the validator cuts `s`; None where it rejects. */
  function ValidatorPieces(s: string): Option<seq<Piece>>
    decreases |s|
  {
    if s == "" then Some([])
    else if s[0] == '{' then
      var end := IndexOf(s, '}');
      if end == |s| || !IsValidVarName(s[1..end]) then None
      else
        var rest :- ValidatorPieces(s[end + 1..]);
        Some([Placeholder(s[1..end])] + rest)
    else if s[0] == '}' || !IsValidPathByte(s[0]) then None
    else
      var rest :- ValidatorPieces(s[1..]);
      Some([Literal(s[0])] + rest)
  }

  /** How the compiler cuts `s`; None for an unclosed placeholder. */
  function CompilerPieces(s: string): Option<seq<Piece>>
    decreases |s|
  {
    if s == "" then Some([])
    else if s[0] == '{' then
      var end := IndexOf(s, '}');
      if end == |s| then None
      else
        var rest :- CompilerPieces(s[end + 1..]);
        Some([Placeholder(s[1..end])] + rest)
    else
      var rest :- CompilerPieces(s[1..]);
      Some([Literal(s[0])] + rest)
  }

  /** Whatever the validator accepts, the compiler cuts in the same places. */
  lemma {:induction false} ScannersAgree(s: string)
    requires ValidatorPieces(s).Some?
    ensures CompilerPieces(s) == ValidatorPieces(s)
    decreases |s|
  {
    if s != "" {
      if s[0] == '{' {
        ScannersAgree(s[IndexOf(s, '}') + 1..]);
      } else {
        ScannersAgree(s[1..]);
      }
    }
  }

  /** The validator's first cut of a non-empty text. */
  lemma FirstCut(s: string) returns (piece: Piece, cut: nat)
    requires ValidatorPieces(s).Some? && s != ""
    ensures 0 < cut <= |s| && PieceText(piece) == s[..cut] && IsValidPiece(piece)
    ensures ValidatorPieces(s[cut..]).Some?
    ensures ValidatorPieces(s).value == [piece] + ValidatorPieces(s[cut..]).value
    ensures s[0] != '/' ==> TokenOf(piece) != Char('/') && forall i :: 0 <= i < cut ==> s[i] != '/'
  {
    hide IndexOf;
    piece := ValidatorPieces(s).value[0];
    if s[0] == '{' {
      cut := IndexOf(s, '}') + 1;
      ValidNameHasNo(s[1..cut - 1], '/');
      assert forall i :: 1 <= i < cut - 1 ==> s[i] == s[1..cut - 1][i - 1];
    } else {
      cut := 1;
    }
  }

  /** An accepted text is spelled by the pieces it is cut into. */
  lemma {:induction false} ValidatorSound(s: string)
    requires ValidatorPieces(s).Some?
    ensures SpelledBy(s, ValidatorPieces(s).value)
    decreases |s|
  {
    if s != "" {
      var piece, cut := FirstCut(s);
      hide ValidatorPieces, PieceText, IsValidPiece;
      var tail := ValidatorPieces(s[cut..]).value;
      ValidatorSound(s[cut..]);
      assert ([piece] + tail)[1..] == tail;
      assert s == s[..cut] + s[cut..];
    }
  }

  lemma ValidNameHasNo(name: string, c: char)
    requires IsValidVarName(name) && (c == '/' || c == '}')
    ensures forall i :: 0 <= i < |name| ==> name[i] != c
  {
  }

  lemma FirstPiece(piece: Piece, rest: string)
    requires IsValidPiece(piece) && ValidatorPieces(rest).Some?
    ensures ValidatorPieces(PieceText(piece) + rest) == Some([piece] + ValidatorPieces(rest).value)
  {
    var s := PieceText(piece) + rest;
    match piece
    case Literal(c) =>
      assert s[1..] == rest;
    case Placeholder(name) =>
      ValidNameHasNo(name, '}');
      IndexOfAfter(s, '}', |name| + 1);
      assert s[1..|name| + 1] == name && s[|name| + 2..] == rest;
  }

  /** Every text spelled by valid pieces is accepted and cut into exactly these. */
  lemma {:induction false} ValidatorComplete(s: string, pieces: seq<Piece>)
    requires SpelledBy(s, pieces)
    ensures ValidatorPieces(s) == Some(pieces)
    decreases |pieces|
  {
    if pieces != [] {
      ValidatorComplete(TextOf(pieces[1..]), pieces[1..]);
      FirstPiece(pieces[0], TextOf(pieces[1..]));
      assert pieces == [pieces[0]] + pieces[1..];
    }
  }

  predicate IsTemplate(p: string) {
    p != "" && p[0] == '/' && ValidatorPieces(p).Some?
  }

  /** A template is a text that starts with '/' and is spelled by pieces of the written rule. */
  lemma TemplateGrammar(p: string)
    ensures IsTemplate(p) <==>
            p != "" && p[0] == '/' && exists pieces :: TextOf(pieces) == p && forall k :: 0 <= k < |pieces| ==> IsRulePiece(pieces[k])
  {
    forall piece ensures IsValidPiece(piece) <==> IsRulePiece(piece) {
      ValidIsRulePiece(piece);
    }
    hide IsValidPiece, IsRulePiece;
    SpelledIffTemplate(p);
    if pieces :| TextOf(pieces) == p && forall k :: 0 <= k < |pieces| ==> IsRulePiece(pieces[k]) {
      assert SpelledBy(p, pieces);
    }
  }

  lemma SpelledIffTemplate(p: string)
    ensures IsTemplate(p) <==> p != "" && p[0] == '/' && exists pieces :: SpelledBy(p, pieces)
  {
    if ValidatorPieces(p).Some? {
      ValidatorSound(p);
    }
    if pieces :| SpelledBy(p, pieces) {
      ValidatorComplete(p, pieces);
    }
  }

  method ValidateName(s: string) returns (ok: bool)
    ensures ok == IsValidVarName(s)
  {
    if s == "" {
      return false;
    }
    for i := 0 to |s|
      invariant forall k :: 0 <= k < i ==> IsLetter(s[k]) || IsDigit(s[k]) || s[k] == '_'
      invariant i > 0 ==> !IsDigit(s[0])
    {
      var c := s[i];
      var good := IsLetter(c) || c == '_';
      if i > 0 {
        good := good || IsDigit(c);
      }
      if !good {
        return false;
      }
    }
    return true;
  }

  /** What the first byte decides about the rest of a text. */
  lemma ValidatorStep(s: string)
    requires s != ""
    ensures s[0] == '{' ==>
              var end := IndexOf(s, '}');
              ValidatorPieces(s).Some? <==>
              end < |s| && end >= 1 && IsValidVarName(s[1..end]) && ValidatorPieces(s[end + 1..]).Some?
    ensures s[0] != '{' ==> (ValidatorPieces(s).Some? <==> s[0] != '}' && IsValidPathByte(s[0]) && ValidatorPieces(s[1..]).Some?)
  {
    hide IsValidVarName, IsValidPathByte, IndexOf;
  }

  method ValidatePath(p: string) returns (ok: bool)
    ensures ok == IsTemplate(p)
  {
    hide ValidatorPieces, IsValidVarName, IsValidPathByte, IndexOf;
    if !("/" <= p) {
      return false;
    }
    assert p[0] == '/' && p[0..] == p;
    var i := 0;
    while i < |p|
      invariant i <= |p|
      invariant ValidatorPieces(p).Some? == ValidatorPieces(p[i..]).Some?
    {
      var c := p[i];
      ValidatorStep(p[i..]);
      if c == '{' {
        var end := IndexOf(p[i..], '}');
        if end == |p[i..]| {
          return false;
        }
        var name := p[i + 1..i + end];
        SliceOfSlice(p, i, 1, end);
        SliceOfSlice(p, i, 1, end + 1);
        var nameOk := ValidateName(name);
        if !nameOk {
          return false;
        }
        i := i + end + 1;
      } else if c == '}' {
        return false;
      } else {
        if !IsValidPathByte(c) {
          return false;
        }
        assert p[i..][1..] == p[i + 1..];
        i := i + 1;
      }
    }
    assert p[|p|..] == "";
    NothingValid();
    return true;
  }

  lemma NothingValid()
    ensures ValidatorPieces("").Some?
  {
  }

  // ----- the expression text -----

  const META := "\\.+*?()|[]{}^$"
  const GAP := "[^/]+"

  /** regexp.QuoteMeta of a single byte. */
  function Quote(c: char): string {
    if c in META then ['\\', c] else [c]
  }

  function TokenText(t: Token): string {
    match t
    case Char(c) => Quote(c)
    case Gap => GAP
  }

  function TokensText(ts: seq<Token>): string {
    if ts == [] then "" else TokenText(ts[0]) + TokensText(ts[1..])
  }

  function TokenOf(piece: Piece): Token {
    if piece.Literal? then Char(piece.c) else Gap
  }

  function TokensOf(pieces: seq<Piece>): (ts: seq<Token>)
    ensures |ts| == |pieces|
    ensures forall k :: 0 <= k < |pieces| ==> ts[k] == TokenOf(pieces[k])
  {
    seq(|pieces|, k requires 0 <= k < |pieces| => TokenOf(pieces[k]))
  }

  function ExpressionText(ts: seq<Token>): string {
    "^" + (TokensText(ts) + "$")
  }

  /** The characters that mean something in the expression language. */
  const SYNTAX := {'\\', '.', '+', '*', '?', '(', ')', '|', '[', ']', '{', '}', '^', '$'}

  /** Reads an expression of the grammar `^`, (escaped or plain character | `[^/]+`)*, `$`. */
  function ReadTokens(s: string): Option<seq<Token>>
    decreases |s|
  {
    if s == "$" then Some([])
    else if "[^/]+" <= s then
      var rest :- ReadTokens(s[5..]);
      Some([Gap] + rest)
    else if |s| > 1 && s[0] == '\\' && s[1] in SYNTAX then
      var rest :- ReadTokens(s[2..]);
      Some([Char(s[1])] + rest)
    else if s != "" && s[0] !in SYNTAX then
      var rest :- ReadTokens(s[1..]);
      Some([Char(s[0])] + rest)
    else None
  }

  function ReadExpression(s: string): Option<seq<Token>> {
    if "^" <= s then ReadTokens(s[1..]) else None
  }

  lemma ReadOneToken(t: Token, rest: string)
    requires ReadTokens(rest).Some?
    ensures ReadTokens(TokenText(t) + rest) == Some([t] + ReadTokens(rest).value)
  {
    var s := TokenText(t) + rest;
    match t
    case Gap =>
      assert "[^/]+" <= s && s[5..] == rest && s[0] == '[';
    case Char(c) =>
      QuotedIsSyntax(c);
      hide META;
      if c in META {
        assert s[0] == '\\' && s[1] == c && s[2..] == rest;
        assert "[^/]+"[0] == '[' && s != "$";
      } else {
        assert s[0] == c && s[1..] == rest;
        assert "[^/]+"[0] == '[' && "$"[0] == '$';
      }
  }

  /** Exactly the characters with a meaning are quoted. */
  lemma QuotedIsSyntax(c: char)
    ensures c in META <==> c in SYNTAX
  {
  }

  lemma {:induction false} ReadTokensOfText(ts: seq<Token>)
    ensures ReadTokens(TokensText(ts) + "$") == Some(ts)
  {
    if ts == [] {
      assert "" + "$" == "$";
    } else {
      ReadTokensOfText(ts[1..]);
      hide TokenText, ReadTokens;
      ReadOneToken(ts[0], TokensText(ts[1..]) + "$");
      Regroup(TokenText(ts[0]), TokensText(ts[1..]), "$");
      assert ts == [ts[0]] + ts[1..];
    }
  }

  /** The emitted text reads back as exactly the token list it was emitted for. */
  lemma ExpressionReadsBack(ts: seq<Token>)
    ensures ReadExpression(ExpressionText(ts)) == Some(ts)
  {
    ReadTokensOfText(ts);
    assert ExpressionText(ts)[1..] == TokensText(ts) + "$";
  }

  lemma {:induction false} TokensTextAppend(ts: seq<Token>, t: Token)
    ensures TokensText(ts + [t]) == TokensText(ts) + TokenText(t)
  {
    hide TokenText;
    if ts == [] {
      assert TokensText([t]) == TokenText(t) + TokensText([]);
    } else {
      TokensTextAppend(ts[1..], t);
      assert (ts + [t])[1..] == ts[1..] + [t];
      Regroup(TokenText(ts[0]), TokensText(ts[1..]), TokenText(t));
    }
  }

  /** The compiler's tokens for a template text. */
  function Compiled(tmpl: string): Option<seq<Token>> {
    var pieces :- CompilerPieces(tmpl);
    Some(TokensOf(pieces))
  }

  /** With `done` emitted and the scan standing at `i`, the rest of the text settles the result. */
  ghost predicate Compiling(tmpl: string, i: nat, done: seq<Token>) {
    && i <= |tmpl|
    && var rest := Compiled(tmpl[i..]);
       Compiled(tmpl) == if rest.None? then None else Some(done + rest.value)
  }

  lemma CompileStart(tmpl: string)
    ensures Compiling(tmpl, 0, []) && "^" + TokensText([]) == "^"
  {
    assert tmpl[0..] == tmpl;
    assert Compiled(tmpl).Some? ==> [] + Compiled(tmpl).value == Compiled(tmpl).value;
  }

  lemma CompiledPlaceholder(s: string)
    requires s != "" && s[0] == '{'
    ensures var end := IndexOf(s, '}');
            if end == |s| then Compiled(s).None?
            else var rest := Compiled(s[end + 1..]);
              Compiled(s) == if rest.None? then None else Some([Gap] + rest.value)
  {
    hide IndexOf;
    var end := IndexOf(s, '}');
    if end < |s| {
      var rest := CompilerPieces(s[end + 1..]);
      if rest.Some? {
        TokensOfCons(Placeholder(s[1..end]), rest.value);
      }
    }
  }

  lemma TokensOfCons(piece: Piece, pieces: seq<Piece>)
    ensures TokensOf([piece] + pieces) == [TokenOf(piece)] + TokensOf(pieces)
  {
  }

  lemma CompiledByte(s: string)
    requires s != "" && s[0] != '{'
    ensures var rest := Compiled(s[1..]);
            Compiled(s) == if rest.None? then None else Some([Char(s[0])] + rest.value)
  {
    if CompilerPieces(s[1..]).Some? {
      var rest := CompilerPieces(s[1..]).value;
      assert TokensOf([Literal(s[0])] + rest) == [Char(s[0])] + TokensOf(rest);
    }
  }

  lemma CompileStep(tmpl: string, i: nat, done: seq<Token>, t: Token, j: nat)
    requires Compiling(tmpl, i, done) && i < j <= |tmpl|
    requires var rest := Compiled(tmpl[j..]);
             Compiled(tmpl[i..]) == if rest.None? then None else Some([t] + rest.value)
    ensures Compiling(tmpl, j, done + [t])
  {
    if Compiled(tmpl[j..]).Some? {
      Regroup(done, [t], Compiled(tmpl[j..]).value);
    }
  }

  /** The expression text is compiled by reading it back with ReadExpression. This speaks of templates in
      ASCII, which is all that validation admits: the source would emit another byte as a rune. */
  method CompilePathTemplate(tmpl: string) returns (re: Option<seq<Token>>)
    ensures re == Compiled(tmpl)
  {
    hide *;
    var sb := "^";
    var i := 0;
    ghost var done: seq<Token> := [];
    CompileStart(tmpl);
    while i < |tmpl|
      invariant i <= |tmpl| && Compiling(tmpl, i, done)
      invariant sb == "^" + TokensText(done)
    {
      var c, suffix := tmpl[i], tmpl[i..];
      ghost var t := if c == '{' then Gap else Char(c);
      TokensTextAppend(done, t);
      Regroup("^", TokensText(done), TokenText(t));
      if c == '{' {
        var end := IndexOf(suffix, '}');
        CompiledPlaceholder(suffix);
        if end == |suffix| {
          UnclosedPlaceholder(tmpl, i, done);
          return None;
        }
        assert suffix[end + 1..] == tmpl[i + end + 1..];
        CompileStep(tmpl, i, done, Gap, i + end + 1);
        sb := sb + TokenText(Gap);
        i := i + end + 1;
      } else {
        CompiledByte(suffix);
        assert suffix[1..] == tmpl[i + 1..];
        CompileStep(tmpl, i, done, Char(c), i + 1);
        sb := sb + TokenText(Char(c));
        i := i + 1;
      }
      done := done + [t];
    }
    CompileEnd(tmpl, done);
    sb := sb + "$";
    ExpressionReadsBack(done);
    re := ReadExpression(sb);
  }

  lemma UnclosedPlaceholder(tmpl: string, i: nat, done: seq<Token>)
    requires Compiling(tmpl, i, done) && Compiled(tmpl[i..]).None?
    ensures Compiled(tmpl).None?
  {
  }

  lemma CompileEnd(tmpl: string, done: seq<Token>)
    requires Compiling(tmpl, |tmpl|, done)
    ensures Compiled(tmpl) == Some(done)
    ensures ExpressionText(done) == "^" + TokensText(done) + "$"
  {
    Regroup("^", TokensText(done), "$");
    assert Compiled("") == Some([]);
    assert done + [] == done;
  }

  // ----- matching -----

  /** Anchored matching of the whole of `s`. */
  predicate Matches(ts: seq<Token>, s: string)
    decreases |s|, |ts|
  {
    if ts == [] then s == ""
    else if s == "" then false
    else
      match ts[0]
      case Char(c) => s[0] == c && Matches(ts[1..], s[1..])
      case Gap => s[0] != '/' && (Matches(ts[1..], s[1..]) || Matches(ts, s[1..]))
  }

  /** What one token may stand for: its character, or one or more characters other than '/'. */
  predicate StandsFor(t: Token, part: string) {
    match t
    case Char(c) => part == [c]
    case Gap => part != "" && '/' !in part
  }

  function Concat(parts: seq<string>): string {
    if parts == [] then "" else parts[0] + Concat(parts[1..])
  }

  /** The text falls into one part per token, in order. */
  ghost predicate Parsed(ts: seq<Token>, s: string, parts: seq<string>) {
    && |parts| == |ts| && Concat(parts) == s
    && forall k :: 0 <= k < |ts| ==> StandsFor(ts[k], parts[k])
  }

  lemma ParsedCons(t: Token, ts: seq<Token>, part: string, s: string, parts: seq<string>)
    requires StandsFor(t, part) && Parsed(ts, s, parts)
    ensures Parsed([t] + ts, part + s, [part] + parts)
  {
    assert ([part] + parts)[1..] == parts;
  }

  lemma {:induction false} MatchesParts(ts: seq<Token>, s: string) returns (parts: seq<string>)
    requires Matches(ts, s)
    ensures Parsed(ts, s, parts)
    decreases |s|, |ts|
  {
    if ts == [] {
      parts := [];
    } else if Matches(ts[1..], s[1..]) && StandsFor(ts[0], [s[0]]) {
      parts := MatchesParts(ts[1..], s[1..]);
      hide Matches, StandsFor;
      ParsedCons(ts[0], ts[1..], [s[0]], s[1..], parts);
      parts := [[s[0]]] + parts;
      assert [s[0]] + s[1..] == s && [ts[0]] + ts[1..] == ts;
    } else {
      var more := MatchesParts(ts, s[1..]);
      GapGrows(ts, s, more);
      parts := [[s[0]] + more[0]] + more[1..];
    }
  }

  lemma GapGrows(ts: seq<Token>, s: string, parts: seq<string>)
    requires ts != [] && ts[0] == Gap && s != "" && s[0] != '/' && Parsed(ts, s[1..], parts)
    ensures Parsed(ts, s, [[s[0]] + parts[0]] + parts[1..])
  {
    var grown := [[s[0]] + parts[0]] + parts[1..];
    assert grown[1..] == parts[1..];
    Regroup([s[0]], parts[0], Concat(parts[1..]));
    assert s == [s[0]] + s[1..];
  }

  lemma {:induction false} PartsMatch(ts: seq<Token>, s: string, parts: seq<string>)
    requires Parsed(ts, s, parts)
    ensures Matches(ts, s)
    decreases |s|, |ts|
  {
    if ts != [] {
      var part, rest := parts[0], Concat(parts[1..]);
      assert StandsFor(ts[0], part) && s == part + rest;
      assert s[0] == part[0];
      if |part| == 1 {
        assert s[1..] == rest;
        PartsMatch(ts[1..], rest, parts[1..]);
      } else {
        var less := [part[1..]] + parts[1..];
        assert less[1..] == parts[1..] && s[1..] == part[1..] + rest;
        PartsMatch(ts, s[1..], less);
      }
    }
  }

  /** Anchored matching means: the whole text is one part per token, each as its token demands. */
  lemma MatchesMeaning(ts: seq<Token>, s: string)
    ensures Matches(ts, s) <==> exists parts :: Parsed(ts, s, parts)
  {
    hide Matches, Parsed;
    if Matches(ts, s) {
      var parts := MatchesParts(ts, s);
    }
    if parts :| Parsed(ts, s, parts) {
      PartsMatch(ts, s, parts);
    }
  }

  /** What one piece of a template may stand for in a path: a byte for itself, a placeholder for one or more
      bytes other than '/'. */
  predicate Fills(piece: Piece, part: string) {
    match piece
    case Literal(c) => part == [c]
    case Placeholder(_) => part != "" && '/' !in part
  }

  /** A template accepts a path exactly when the path falls, in order, into one part per piece that fills it. */
  lemma TemplateMeaning(tmpl: string, pieces: seq<Piece>, path: string)
    requires SpelledBy(tmpl, pieces)
    ensures Compiled(tmpl).Some?
    ensures Matches(Compiled(tmpl).value, path) <==>
            exists parts :: |parts| == |pieces| && Concat(parts) == path && forall k :: 0 <= k < |pieces| ==> Fills(pieces[k], parts[k])
  {
    ValidatorComplete(tmpl, pieces);
    ScannersAgree(tmpl);
    hide Matches, SpelledBy, CompilerPieces, ValidatorPieces, Concat;
    var ts := Compiled(tmpl).value;
    assert ts == TokensOf(pieces);
    MatchesMeaning(ts, path);
    forall k: nat, part | k < |pieces| ensures StandsFor(ts[k], part) <==> Fills(pieces[k], part) {
      assert ts[k] == TokenOf(pieces[k]);
    }
    hide StandsFor, Fills, TokenOf;
    if parts :| Parsed(ts, path, parts) {
      assert forall k :: 0 <= k < |pieces| ==> Fills(pieces[k], parts[k]);
    }
    if parts :| |parts| == |pieces| && Concat(parts) == path && forall k :: 0 <= k < |pieces| ==> Fills(pieces[k], parts[k]) {
      assert Parsed(ts, path, parts);
    }
  }

  predicate NoSlash(ts: seq<Token>) {
    forall k :: 0 <= k < |ts| ==> ts[k] != Char('/')
  }

  /** Tokens without '/' match up to the first '/' of the text or not at all. */
  lemma {:induction false} MatchesSegment(xs: seq<Token>, ys: seq<Token>, s: string)
    requires NoSlash(xs)
    ensures var k := IndexOf(s, '/');
            Matches(xs + ([Char('/')] + ys), s)
            <==> k < |s| && Matches(xs, s[..k]) && Matches(ys, s[k + 1..])
    decreases |s|, |xs|
  {
    var ts, k := xs + ([Char('/')] + ys), IndexOf(s, '/');
    if xs == [] {
      assert ts[0] == Char('/') && ts[1..] == ys;
    } else if s != "" {
      var t, xs' := xs[0], xs[1..];
      assert ts[0] == t && ts[1..] == xs' + ([Char('/')] + ys);
      if k > 0 {
        assert IndexOf(s[1..], '/') == k - 1;
        assert k < |s| ==> s[1..][k..] == s[k + 1..];
        assert s[..k][1..] == s[1..][..k - 1] && s[..k][0] == s[0];
        MatchesSegment(xs', ys, s[1..]);
        if t == Gap {
          MatchesSegment(xs, ys, s[1..]);
        }
      }
    }
  }

  /** Tokens without '/' match no text with a '/'. */
  lemma {:induction false} MatchesNoSlash(xs: seq<Token>, s: string)
    requires NoSlash(xs) && Matches(xs, s)
    ensures forall k :: 0 <= k < |s| ==> s[k] != '/'
    decreases |s|, |xs|
  {
    if xs != [] {
      if Matches(xs[1..], s[1..]) {
        MatchesNoSlash(xs[1..], s[1..]);
      } else {
        MatchesNoSlash(xs, s[1..]);
      }
    }
  }

  function Segments(s: string): (r: seq<string>)
    ensures r != []
  {
    SplitOn(s, '/')
  }

  /** The token lists of the segments of a template. */
  ghost predicate SegmentsMatch(ts: seq<string>, ps: seq<string>) {
    && |ts| == |ps|
    && forall k :: 0 <= k < |ts| ==> Compiled(ts[k]).Some? && Matches(Compiled(ts[k]).value, ps[k])
  }

  lemma NoSlashMore(piece: Piece, pieces: seq<Piece>)
    requires TokenOf(piece) != Char('/') && NoSlash(TokensOf(pieces))
    ensures NoSlash(TokensOf([piece] + pieces))
  {
    assert TokensOf([piece] + pieces) == [TokenOf(piece)] + TokensOf(pieces);
  }

  /** The first '/' of `s`, if any, is at `k`; the pieces before it are `xs` and those behind it `ys`. */
  ghost predicate Divides(s: string, k: nat, xs: seq<Piece>, ys: seq<Piece>) {
    && k == IndexOf(s, '/')
    && ValidatorPieces(s[..k]) == Some(xs) && NoSlash(TokensOf(xs))
    && (k < |s| ==> ValidatorPieces(s[k + 1..]) == Some(ys)
                    && ValidatorPieces(s) == Some(xs + ([Literal('/')] + ys)))
  }

  lemma CutBefore(s: string, piece: Piece, cut: nat, k: nat, xs: seq<Piece>)
    requires cut + k <= |s| && PieceText(piece) == s[..cut] && IsValidPiece(piece)
    requires ValidatorPieces(s[cut..][..k]) == Some(xs)
    ensures ValidatorPieces(s[..cut + k]) == Some([piece] + xs)
  {
    hide *;
    SliceOfSlice(s, cut, k, k);
    FirstPiece(piece, s[cut..][..k]);
  }

  lemma CutBehind(s: string, piece: Piece, cut: nat, k: nat, xs: seq<Piece>, ys: seq<Piece>)
    requires cut + k < |s| && ValidatorPieces(s[cut..]).Some?
    requires ValidatorPieces(s) == Some([piece] + ValidatorPieces(s[cut..]).value)
    requires ValidatorPieces(s[cut..]).value == xs + ([Literal('/')] + ys)
    requires ValidatorPieces(s[cut..][k + 1..]) == Some(ys)
    ensures ValidatorPieces(s[cut + k + 1..]) == Some(ys)
    ensures ValidatorPieces(s) == Some(([piece] + xs) + ([Literal('/')] + ys))
  {
    hide *;
    SliceOfSlice(s, cut, k, k + 1);
    Regroup([piece], xs, [Literal('/')] + ys);
  }

  lemma DividesMore(s: string, piece: Piece, cut: nat, k: nat, xs: seq<Piece>, ys: seq<Piece>)
    requires 0 < cut <= |s| && PieceText(piece) == s[..cut] && IsValidPiece(piece)
    requires TokenOf(piece) != Char('/') && forall i :: 0 <= i < cut ==> s[i] != '/'
    requires ValidatorPieces(s[cut..]).Some? && ValidatorPieces(s) == Some([piece] + ValidatorPieces(s[cut..]).value)
    requires Divides(s[cut..], k, xs, ys)
    ensures Divides(s, cut + k, [piece] + xs, ys)
  {
    hide ValidatorPieces, PieceText, IsValidPiece, NoSlash, IndexOf, TokenOf, TokensOf;
    ShiftIndex(s, '/', cut);
    NoSlashMore(piece, xs);
    CutBefore(s, piece, cut, k, xs);
    if cut + k < |s| {
      CutBehind(s, piece, cut, k, xs, ys);
    }
  }

  lemma DividesNothing()
    ensures Divides("", IndexOf("", '/'), [], [])
  {
  }

  lemma DividesAtOnce(s: string) returns (ys: seq<Piece>)
    requires ValidatorPieces(s).Some? && s != "" && s[0] == '/'
    ensures Divides(s, IndexOf(s, '/'), [], ys)
  {
    ys := ValidatorPieces(s[1..]).value;
    hide IsValidPathByte, IsValidVarName;
    assert [] + ([Literal('/')] + ys) == [Literal('/')] + ys && s[..0] == "";
  }

  /** Cutting a valid template at its first '/' cuts its piece list there too. */
  lemma {:induction false} PiecesAtSlash(s: string) returns (xs: seq<Piece>, ys: seq<Piece>)
    requires ValidatorPieces(s).Some?
    ensures Divides(s, IndexOf(s, '/'), xs, ys)
    decreases |s|
  {
    hide *;
    if s == "" {
      DividesNothing();
      xs, ys := [], [];
    } else if s[0] == '/' {
      ys := DividesAtOnce(s);
      xs := [];
    } else {
      var piece, cut := FirstCut(s);
      xs, ys := PiecesAtSlash(s[cut..]);
      DividesMore(s, piece, cut, IndexOf(s[cut..], '/'), xs, ys);
      ShiftIndex(s, '/', cut);
      xs := [piece] + xs;
    }
  }

  /** What PiecesAtSlash means for the compiled templates. */
  lemma CompiledAtSlash(tmpl: string)
    requires ValidatorPieces(tmpl).Some?
    ensures var k := IndexOf(tmpl, '/');
            && Compiled(tmpl).Some? && Compiled(tmpl[..k]).Some?
            && NoSlash(Compiled(tmpl[..k]).value)
            && (k < |tmpl| ==>
                  && ValidatorPieces(tmpl[k + 1..]).Some? && Compiled(tmpl[k + 1..]).Some?
                  && Compiled(tmpl).value == Compiled(tmpl[..k]).value + ([Char('/')] + Compiled(tmpl[k + 1..]).value))
  {
    hide ValidatorPieces, CompilerPieces, IndexOf, NoSlash;
    var k := IndexOf(tmpl, '/');
    var xs, ys := PiecesAtSlash(tmpl);
    ScannersAgree(tmpl);
    ScannersAgree(tmpl[..k]);
    if k < |tmpl| {
      ScannersAgree(tmpl[k + 1..]);
      TokensOfAppend(xs, [Literal('/')] + ys);
      TokensOfCons(Literal('/'), ys);
    }
  }

  lemma TokensOfAppend(xs: seq<Piece>, ys: seq<Piece>)
    ensures TokensOf(xs + ys) == TokensOf(xs) + TokensOf(ys)
  {
  }

  /** A template accepts a path exactly when both have equally many segments and each
      segment of the path is matched by the template's segment on its own. */
  lemma {:induction false} MatchesSegmentwise(tmpl: string, path: string)
    requires ValidatorPieces(tmpl).Some?
    ensures Compiled(tmpl).Some?
    ensures Matches(Compiled(tmpl).value, path) <==> SegmentsMatch(Segments(tmpl), Segments(path))
    decreases |tmpl|
  {
    hide *;
    CompiledAtSlash(tmpl);
    var k, j := IndexOf(tmpl, '/'), IndexOf(path, '/');
    if k == |tmpl| {
      assert tmpl[..k] == tmpl;
      if Matches(Compiled(tmpl).value, path) {
        MatchesNoSlash(Compiled(tmpl).value, path);
      }
      OneSegment(tmpl, path);
    } else {
      var head, tail := tmpl[..k], tmpl[k + 1..];
      SegmentsUnfold(tmpl);
      SegmentsUnfold(path);
      MatchesSegment(Compiled(head).value, Compiled(tail).value, path);
      if j < |path| {
        MatchesSegmentwise(tail, path[j + 1..]);
        MoreSegments(head, Segments(tail), path[..j], Segments(path[j + 1..]));
      } else {
        DifferentLengths(Segments(tmpl), Segments(path));
      }
    }
  }

  lemma SegmentsUnfold(s: string)
    ensures var k := IndexOf(s, '/');
            Segments(s) == if k == |s| then [s] else [s[..k]] + Segments(s[k + 1..])
  {
    hide IndexOf;
  }

  lemma DifferentLengths(ts: seq<string>, ps: seq<string>)
    requires |ts| != |ps|
    ensures !SegmentsMatch(ts, ps)
  {
  }

  lemma OneSegment(tmpl: string, path: string)
    requires IndexOf(tmpl, '/') == |tmpl| && Compiled(tmpl).Some?
    requires Matches(Compiled(tmpl).value, path) ==> IndexOf(path, '/') == |path|
    ensures Matches(Compiled(tmpl).value, path) <==> SegmentsMatch(Segments(tmpl), Segments(path))
  {
    hide Matches, Compiled, IndexOf;
    assert Segments(tmpl) == [tmpl];
    if IndexOf(path, '/') == |path| {
      assert Segments(path) == [path];
      assert [tmpl][0] == tmpl && [path][0] == path;
    } else {
      assert |Segments(path)| > 1;
    }
  }

  lemma MoreSegments(t: string, ts: seq<string>, p: string, ps: seq<string>)
    ensures SegmentsMatch([t] + ts, [p] + ps)
            <==> Compiled(t).Some? && Matches(Compiled(t).value, p) && SegmentsMatch(ts, ps)
  {
    hide Matches, Compiled;
    var tt, pp := [t] + ts, [p] + ps;
    assert tt[0] == t && pp[0] == p && tt[1..] == ts && pp[1..] == ps;
    if SegmentsMatch(tt, pp) {
      forall k | 0 <= k < |ts| ensures Compiled(ts[k]).Some? && Matches(Compiled(ts[k]).value, ps[k]) {
        assert tt[k + 1] == ts[k] && pp[k + 1] == ps[k];
      }
    }
  }

  /** In particular a path that matches has exactly as many '/' as the template. */
  lemma SlashCountsAgree(tmpl: string, path: string)
    requires ValidatorPieces(tmpl).Some?
    requires Compiled(tmpl).Some? && Matches(Compiled(tmpl).value, path)
    ensures multiset(tmpl)['/'] == multiset(path)['/']
  {
    MatchesSegmentwise(tmpl, path);
    SegmentsCountSlashes(tmpl);
    SegmentsCountSlashes(path);
  }

  lemma {:induction false} SegmentsCountSlashes(s: string)
    ensures |Segments(s)| == multiset(s)['/'] + 1
    decreases |s|
  {
    var k := IndexOf(s, '/');
    if k < |s| {
      SegmentsCountSlashes(s[k + 1..]);
      assert s == s[..k] + [s[k]] + s[k + 1..];
      assert multiset(s[..k])['/'] == 0;
    } else {
      assert multiset(s)['/'] == 0;
    }
  }
}
