/** Rewriting `:name` parameters to `$1, $2, ...` and resolving the names to a positional vector. */
module NamedParams {
  import opened Wrappers
  import Decimal

  /** `char::is_alphabetic` and `char::is_alphanumeric`.  Nothing below depends on which characters they accept. */
  datatype CharClass = CharClass(alphabetic: char -> bool, alphanumeric: char -> bool)

  // ----- tokens -----

  datatype Kind = LineComment | BlockComment | Literal | QuotedIdentifier | DollarQuoted | Cast | Plain

  datatype Token = Verbatim(kind: Kind, text: string) | Param(name: string)

  /** Where each kind of token that starts before `i` ends. */
  function LineEnd(s: string, i: nat): (j: nat)
    requires i <= |s|
    ensures i <= j <= |s|
    decreases |s| - i
  {
    if i < |s| && s[i] != '\n' then LineEnd(s, i + 1) else i
  }

  predicate ClosesBlock(s: string, i: nat) { i + 1 < |s| && s[i] == '*' && s[i + 1] == '/' }

  /** The first `*` `/` from `i` on, or where the search for it gives up: one character before the end. */
  function BlockStop(s: string, i: nat): (j: nat)
    requires i <= |s|
    ensures i <= j <= |s| && (j + 1 < |s| ==> ClosesBlock(s, j))
    decreases |s| - i
  {
    if i + 1 < |s| && !ClosesBlock(s, i) then BlockStop(s, i + 1) else i
  }

  function BlockEnd(s: string, i: nat): (j: nat)
    requires i <= |s|
    ensures i <= j <= |s|
  {
    var j := BlockStop(s, i);
    if j + 1 < |s| then j + 2 else j
  }

  function LiteralEnd(s: string, i: nat): (j: nat)
    requires i <= |s|
    ensures i <= j <= |s|
    decreases |s| - i
  {
    if i == |s| then i
    else if s[i] != '\'' then LiteralEnd(s, i + 1)
    else if i + 1 < |s| && s[i + 1] == '\'' then LiteralEnd(s, i + 2)
    else i + 1
  }

  function IdentifierEnd(s: string, i: nat): (j: nat)
    requires i <= |s|
    ensures i <= j <= |s|
    decreases |s| - i
  {
    if i == |s| then i else if s[i] == '"' then i + 1 else IdentifierEnd(s, i + 1)
  }

  predicate WordChar(c: char, cc: CharClass) { cc.alphanumeric(c) || c == '_' }

  function WordEnd(s: string, i: nat, cc: CharClass): (j: nat)
    requires i <= |s|
    ensures i <= j <= |s|
    decreases |s| - i
  {
    if i < |s| && WordChar(s[i], cc) then WordEnd(s, i + 1, cc) else i
  }

  predicate TagAt(s: string, i: nat, tag: string) { i + |tag| <= |s| && s[i..i + |tag|] == tag }

  function DollarEnd(s: string, i: nat, tag: string): (j: nat)
    requires i <= |s|
    ensures i <= j <= |s|
    decreases |s| - i
  {
    if i == |s| then i
    else if s[i] == '$' && TagAt(s, i, tag) then i + |tag|
    else DollarEnd(s, i + 1, tag)
  }

  predicate StartsWith(s: string, i: nat, a: char, b: char) { i + 1 < |s| && s[i] == a && s[i + 1] == b }

  predicate StartsParam(s: string, i: nat, cc: CharClass) {
    i + 1 < |s| && s[i] == ':' && (cc.alphabetic(s[i + 1]) || s[i + 1] == '_')
  }

  function TokenEnd(s: string, i: nat, cc: CharClass): (j: nat)
    requires i < |s|
    ensures i < j <= |s|
  {
    if StartsWith(s, i, '-', '-') then
      assert LineEnd(s, i) == LineEnd(s, i + 1);
      LineEnd(s, i)
    else if StartsWith(s, i, '/', '*') then BlockEnd(s, i + 2)
    else if s[i] == '\'' then LiteralEnd(s, i + 1)
    else if s[i] == '"' then IdentifierEnd(s, i + 1)
    else if s[i] == '$' then
      var t := WordEnd(s, i + 1, cc);
      if t < |s| && s[t] == '$' then DollarEnd(s, t + 1, s[i..t + 1]) else i + 1
    else if StartsWith(s, i, ':', ':') then i + 2
    else if StartsParam(s, i, cc) then WordEnd(s, i + 1, cc)
    else i + 1
  }

  function KindAt(s: string, i: nat, cc: CharClass): Kind
    requires i < |s|
  {
    if StartsWith(s, i, '-', '-') then LineComment
    else if StartsWith(s, i, '/', '*') then BlockComment
    else if s[i] == '\'' then Literal
    else if s[i] == '"' then QuotedIdentifier
    else if s[i] == '$' then
      var t := WordEnd(s, i + 1, cc);
      if t < |s| && s[t] == '$' then DollarQuoted else Plain
    else if StartsWith(s, i, ':', ':') then Cast
    else Plain
  }

  predicate IsParam(s: string, i: nat, cc: CharClass) { StartsParam(s, i, cc) && !StartsWith(s, i, ':', ':') }

  function TokenAt(s: string, i: nat, cc: CharClass): Token
    requires i < |s|
  {
    var j := TokenEnd(s, i, cc);
    if IsParam(s, i, cc) then Param(s[i + 1..j]) else Verbatim(KindAt(s, i, cc), s[i..j])
  }

  function Tokens(s: string, i: nat, cc: CharClass): seq<Token>
    requires i <= |s|
    decreases |s| - i
  {
    if i == |s| then [] else [TokenAt(s, i, cc)] + Tokens(s, TokenEnd(s, i, cc), cc)
  }

  // ----- what the tokens are -----

  /** A literal after its opening quote: other characters and doubled quotes, then the closing quote, unless the end
      of the text comes first. */
  predicate LiteralRest(t: string, atEnd: bool) {
    if t == "" then atEnd
    else if t[0] != '\'' then LiteralRest(t[1..], atEnd)
    else if |t| >= 2 && t[1] == '\'' then LiteralRest(t[2..], atEnd)
    else |t| == 1
  }

  /** No block comment is closed, or no `tag` starts, at a position in `lo..hi`. */
  ghost predicate NoClose(s: string, lo: nat, hi: int) { forall k :: lo <= k < hi ==> !ClosesBlock(s, k) }

  ghost predicate NoTag(s: string, lo: nat, hi: int, tag: string) { forall k :: lo <= k < hi ==> !TagAt(s, k, tag) }

  /** An opening tag `s[i..b]`, then a body without that tag, then the tag again or the end of the text. */
  ghost predicate DollarShape(s: string, i: nat, b: nat, j: nat, cc: CharClass) {
    && i + 2 <= b <= j <= |s| && s[i] == '$' && s[b - 1] == '$'
    && (forall k :: i + 1 <= k < b - 1 ==> WordChar(s[k], cc))
    && if j - b >= b - i && TagAt(s, j - (b - i), s[i..b]) then NoTag(s, b, j - (b - i), s[i..b])
       else j == |s| && NoTag(s, b, |s|, s[i..b])
  }

  ghost predicate DollarQuotation(s: string, i: nat, j: nat, cc: CharClass) { exists b :: DollarShape(s, i, b, j, cc) }

  /** `s[i..j]` is one complete construct of its kind, or one that the end of the text cuts off; its inside is
      therefore not read for parameters. */
  ghost predicate Protected(kind: Kind, s: string, i: nat, j: nat, cc: CharClass)
    requires i < j <= |s|
  {
    match kind
    case LineComment => StartsWith(s, i, '-', '-') && j >= i + 2 && '\n' !in s[i..j] && (j < |s| ==> s[j] == '\n')
    case BlockComment =>
      StartsWith(s, i, '/', '*') && j >= i + 2 &&
      if j >= i + 4 && ClosesBlock(s, j - 2) then NoClose(s, i + 2, j - 2) else j >= |s| - 1 && NoClose(s, i + 2, |s|)
    case Literal => s[i] == '\'' && LiteralRest(s[i + 1..j], j == |s|)
    case QuotedIdentifier =>
      s[i] == '"' && if j >= i + 2 && s[j - 1] == '"' then '"' !in s[i + 1..j - 1] else j == |s| && '"' !in s[i + 1..j]
    case DollarQuoted => DollarQuotation(s, i, j, cc)
    case Cast => j == i + 2 && StartsWith(s, i, ':', ':')
    case Plain => j == i + 1
  }

  /** No comment, quotation, cast or parameter begins at `i`. */
  ghost predicate OpensNothing(s: string, i: nat, cc: CharClass)
    requires i < |s|
  {
    && !StartsWith(s, i, '-', '-') && !StartsWith(s, i, '/', '*') && !StartsWith(s, i, ':', ':')
    && s[i] != '\'' && s[i] != '"'
    && (s[i] == '$' ==> forall b :: i < b < |s| && s[b] == '$' ==> exists k :: i < k < b && !WordChar(s[k], cc))
    && !(i + 1 < |s| && s[i] == ':' && (cc.alphabetic(s[i + 1]) || s[i + 1] == '_'))
  }

  lemma LoneSign(s: string, i: nat, cc: CharClass)
    requires i < |s| && s[i] == '$' && !WordChar('$', cc)
    requires var t := WordEnd(s, i + 1, cc); !(t < |s| && s[t] == '$')
    ensures forall b :: i < b < |s| && s[b] == '$' ==> exists k :: i < k < b && !WordChar(s[k], cc)
  {
    var t := WordEnd(s, i + 1, cc);
    WordStops(s, i + 1, cc);
    WordShape(s, i + 1, cc);
    forall b | i < b < |s| && s[b] == '$' ensures exists k :: i < k < b && !WordChar(s[k], cc) {
      assert t < b;
      assert !WordChar(s[t], cc);
    }
  }

  lemma {:induction false} LineShape(s: string, i: nat)
    requires i <= |s|
    ensures '\n' !in s[i..LineEnd(s, i)] && (LineEnd(s, i) < |s| ==> s[LineEnd(s, i)] == '\n')
    decreases |s| - i
  {
    if i < |s| && s[i] != '\n' {
      LineShape(s, i + 1);
      assert s[i..LineEnd(s, i)] == [s[i]] + s[i + 1..LineEnd(s, i)];
    }
  }

  lemma {:induction false} BlockShape(s: string, i: nat)
    requires i <= |s|
    ensures forall k :: i <= k < BlockStop(s, i) ==> !ClosesBlock(s, k)
    ensures BlockStop(s, i) + 1 >= |s| || ClosesBlock(s, BlockStop(s, i))
    decreases |s| - i
  {
    if i + 1 < |s| && !ClosesBlock(s, i) { BlockShape(s, i + 1); }
  }

  lemma {:induction false} LiteralShape(s: string, i: nat)
    requires i <= |s|
    ensures LiteralRest(s[i..LiteralEnd(s, i)], LiteralEnd(s, i) == |s|)
    decreases |s| - i
  {
    var j := LiteralEnd(s, i);
    if i < |s| {
      if s[i] != '\'' {
        LiteralShape(s, i + 1);
        assert s[i..j][1..] == s[i + 1..j];
      } else if i + 1 < |s| && s[i + 1] == '\'' {
        LiteralShape(s, i + 2);
        assert s[i..j][2..] == s[i + 2..j];
      }
    }
  }

  lemma {:induction false} IdentifierShape(s: string, i: nat)
    requires i <= |s|
    ensures var j := IdentifierEnd(s, i);
            if j > i && s[j - 1] == '"' then '"' !in s[i..j - 1] else j == |s| && '"' !in s[i..j]
    decreases |s| - i
  {
    var j := IdentifierEnd(s, i);
    if i < |s| && s[i] != '"' {
      IdentifierShape(s, i + 1);
      assert s[i..j] == [s[i]] + s[i + 1..j];
      if j > i + 1 { assert s[i..j - 1] == [s[i]] + s[i + 1..j - 1]; }
    }
  }

  lemma {:induction false} WordShape(s: string, i: nat, cc: CharClass)
    requires i <= |s|
    ensures forall k :: i <= k < WordEnd(s, i, cc) ==> WordChar(s[k], cc)
    decreases |s| - i
  {
    if i < |s| && WordChar(s[i], cc) { WordShape(s, i + 1, cc); }
  }

  lemma TagStart(s: string, i: nat, tag: string)
    requires TagAt(s, i, tag) && |tag| >= 1
    ensures s[i] == tag[0]
  {
    assert s[i..i + |tag|][0] == s[i];
  }

  lemma {:induction false} DollarStop(s: string, i: nat, tag: string)
    requires i <= |s| && |tag| >= 1 && tag[0] == '$'
    ensures var j := DollarEnd(s, i, tag);
            if j >= i + |tag| && TagAt(s, j - |tag|, tag) then NoTag(s, i, j - |tag|, tag)
            else j == |s| && NoTag(s, i, |s|, tag)
    decreases |s| - i
  {
    if i < |s| && !(s[i] == '$' && TagAt(s, i, tag)) {
      DollarStop(s, i + 1, tag);
      assert !TagAt(s, i, tag) by { if s[i] != '$' && TagAt(s, i, tag) { TagStart(s, i, tag); } }
    }
  }

  lemma DollarProtected(s: string, i: nat, cc: CharClass)
    requires i < |s| && s[i] == '$'
    requires var t := WordEnd(s, i + 1, cc); t < |s| && s[t] == '$'
    ensures var b := WordEnd(s, i + 1, cc) + 1; DollarShape(s, i, b, DollarEnd(s, b, s[i..b]), cc)
  {
    WordShape(s, i + 1, cc);
    var b := WordEnd(s, i + 1, cc) + 1;
    DollarStop(s, b, s[i..b]);
  }

  lemma CommentProtected(s: string, i: nat, cc: CharClass)
    requires StartsWith(s, i, '-', '-') || StartsWith(s, i, '/', '*')
    ensures Protected(KindAt(s, i, cc), s, i, TokenEnd(s, i, cc), cc)
  {
    if StartsWith(s, i, '-', '-') {
      LineShape(s, i);
      assert LineEnd(s, i + 1) >= i + 2;
    } else {
      BlockShape(s, i + 2);
    }
  }

  lemma QuoteProtected(s: string, i: nat, cc: CharClass)
    requires i < |s| && (s[i] == '\'' || s[i] == '"')
    ensures Protected(KindAt(s, i, cc), s, i, TokenEnd(s, i, cc), cc)
  {
    if s[i] == '\'' { LiteralShape(s, i + 1); } else { IdentifierShape(s, i + 1); }
  }

  lemma SignProtected(s: string, i: nat, cc: CharClass)
    requires i < |s| && s[i] == '$'
    ensures Protected(KindAt(s, i, cc), s, i, TokenEnd(s, i, cc), cc)
  {
    if KindAt(s, i, cc) == DollarQuoted {
      DollarProtected(s, i, cc);
      assert DollarQuotation(s, i, TokenEnd(s, i, cc), cc);
    }
  }

  /** Every verbatim token really is the comment, literal, identifier, quotation, cast or single character its kind
      says, and it extends as far as that construct does; so no parameter is ever read out of one.  Nothing begins at
      a single character.  A parameter name begins with a letter or `_` and is as long as possible. */
  lemma TokenShape(s: string, i: nat, cc: CharClass)
    requires i < |s|
    ensures var j := TokenEnd(s, i, cc);
            match TokenAt(s, i, cc)
            case Verbatim(kind, t) =>
              && t == s[i..j] && Protected(kind, s, i, j, cc)
              && (kind == Kind.Plain && !WordChar('$', cc) ==> OpensNothing(s, i, cc))
            case Param(name) =>
              && s[i] == ':' && name == s[i + 1..j] && i + 1 < |s| && s[i + 1] != ':'
              && (cc.alphabetic(s[i + 1]) || s[i + 1] == '_')
              && (forall k :: i + 1 <= k < j ==> WordChar(s[k], cc))
              && (j < |s| ==> !WordChar(s[j], cc))
  {
    if StartsWith(s, i, '-', '-') || StartsWith(s, i, '/', '*') {
      CommentProtected(s, i, cc);
    } else if s[i] == '\'' || s[i] == '"' {
      QuoteProtected(s, i, cc);
    } else if s[i] == '$' {
      SignProtected(s, i, cc);
      var t := WordEnd(s, i + 1, cc);
      if !(t < |s| && s[t] == '$') && !WordChar('$', cc) { LoneSign(s, i, cc); }
    } else if IsParam(s, i, cc) {
      WordShape(s, i + 1, cc);
      WordStops(s, i + 1, cc);
    }
  }

  lemma {:induction false} WordStops(s: string, i: nat, cc: CharClass)
    requires i <= |s|
    ensures WordEnd(s, i, cc) < |s| ==> !WordChar(s[WordEnd(s, i, cc)], cc)
    decreases |s| - i
  {
    if i < |s| && WordChar(s[i], cc) { WordStops(s, i + 1, cc); }
  }

  // ----- nothing is lost -----

  function Spelling(t: Token): string { if t.Param? then ":" + t.name else t.text }

  function Source(ts: seq<Token>): string { if ts == [] then "" else Spelling(ts[0]) + Source(ts[1..]) }

  /** The tokens spell the input back, character for character. */
  lemma {:induction false} TokensSpellInput(s: string, i: nat, cc: CharClass)
    requires i <= |s|
    ensures Source(Tokens(s, i, cc)) == s[i..]
    decreases |s| - i
  {
    hide TokenEnd, TokenAt;
    if i < |s| {
      var j := TokenEnd(s, i, cc);
      TokensSpellInput(s, j, cc);
      SpellToken(s, i, cc);
      SourceCons(TokenAt(s, i, cc), Tokens(s, j, cc));
      assert s[i..] == s[i..j] + s[j..];
    }
  }

  lemma {:induction false} SourceCons(t: Token, ts: seq<Token>)
    ensures Source([t] + ts) == Spelling(t) + Source(ts)
  {
    assert ([t] + ts)[1..] == ts;
  }

  lemma {:induction false} SpellToken(s: string, i: nat, cc: CharClass)
    requires i < |s|
    ensures Spelling(TokenAt(s, i, cc)) == s[i..TokenEnd(s, i, cc)]
  {
  }

  // ----- the rewriting -----

  datatype Piece = Text(text: string) | Position(k: nat)

  function IndexOf(names: seq<string>, name: string): (i: nat)
    requires name in names
    ensures i < |names| && names[i] == name && name !in names[..i]
  {
    if names[0] == name then 0 else 1 + IndexOf(names[1..], name)
  }

  function WithName(names: seq<string>, name: string): seq<string> {
    if name in names then names else names + [name]
  }

  function PieceOf(t: Token, names: seq<string>): Piece
    requires t.Param? ==> t.name in names
  {
    if t.Param? then Position(IndexOf(names, t.name) + 1) else Text(t.text)
  }

  function NamesAfter(t: Token, names: seq<string>): seq<string> { if t.Param? then WithName(names, t.name) else names }

  function Pieces(ts: seq<Token>, names: seq<string>): seq<Piece> {
    if ts == [] then [] else
      var names' := NamesAfter(ts[0], names);
      [PieceOf(ts[0], names')] + Pieces(ts[1..], names')
  }

  function NamesOf(ts: seq<Token>, names: seq<string>): seq<string> {
    if ts == [] then names else NamesOf(ts[1..], NamesAfter(ts[0], names))
  }

  function Render(p: Piece): string { if p.Position? then "$" + Decimal.ToText(p.k) else p.text }

  function Flat(ps: seq<Piece>): string { if ps == [] then "" else Render(ps[0]) + Flat(ps[1..]) }

  method CopyLineComment(s: string, start: nat) returns (text: string, i: nat)
    requires start < |s|
    ensures i == LineEnd(s, start) && text == s[start..i]
  {
    hide LineEnd;
    text, i := "", start;
    while i < |s| && s[i] != '\n'
      invariant start <= i <= |s| && text == s[start..i] && LineEnd(s, i) == LineEnd(s, start)
    {
      LineContinues(s, i);
      text := text + [s[i]];
      i := i + 1;
    }
    LineContinues(s, i);
  }

  lemma LineContinues(s: string, i: nat)
    requires i <= |s|
    ensures LineEnd(s, i) == if i < |s| && s[i] != '\n' then LineEnd(s, i + 1) else i
  {
  }

  method CopyBlockComment(s: string, start: nat) returns (text: string, i: nat)
    requires StartsWith(s, start, '/', '*')
    ensures i == BlockEnd(s, start + 2) && text == s[start..i]
  {
    text, i := ['/', '*'], start + 2;
    while i + 1 < |s| && !(s[i] == '*' && s[i + 1] == '/')
      invariant start + 2 <= i <= |s| && text == s[start..i] && BlockStop(s, i) == BlockStop(s, start + 2)
    {
      text := text + [s[i]];
      i := i + 1;
    }
    if i + 1 < |s| {
      text := text + ['*', '/'];
      i := i + 2;
    }
  }

  method CopyIdentifier(s: string, start: nat) returns (text: string, i: nat)
    requires start < |s| && s[start] == '"'
    ensures i == IdentifierEnd(s, start + 1) && text == s[start..i]
  {
    text, i := ['"'], start + 1;
    while i < |s|
      invariant start + 1 <= i <= |s| && text == s[start..i] && IdentifierEnd(s, i) == IdentifierEnd(s, start + 1)
    {
      text := text + [s[i]];
      if s[i] == '"' {
        i := i + 1;
        return;
      }
      i := i + 1;
    }
  }

  method CopyLiteral(s: string, start: nat) returns (text: string, i: nat)
    requires start < |s| && s[start] == '\''
    ensures i == LiteralEnd(s, start + 1) && text == s[start..i]
  {
    text, i := ['\''], start + 1;
    while i < |s|
      invariant start + 1 <= i <= |s| && text == s[start..i] && LiteralEnd(s, i) == LiteralEnd(s, start + 1)
    {
      text := text + [s[i]];
      if s[i] == '\'' {
        if i + 1 < |s| && s[i + 1] == '\'' {
          text := text + ['\''];
          assert text == s[start..i + 2];
          i := i + 2;
        } else {
          i := i + 1;
          return;
        }
      } else {
        i := i + 1;
      }
    }
  }

  method CopyDollarBody(s: string, start: nat, body: nat) returns (text: string, i: nat)
    requires start < body <= |s|
    ensures i == DollarEnd(s, body, s[start..body]) && text == s[start..i]
  {
    var tag := s[start..body];
    var n := |tag|;
    text, i := tag, body;
    while i < |s|
      invariant body <= i <= |s| && text == s[start..i] && DollarEnd(s, i, tag) == DollarEnd(s, body, tag)
    {
      if s[i] == '$' && i + n <= |s| && s[i..i + n] == tag {
        text := text + tag;
        i := i + n;
        return;
      }
      text := text + [s[i]];
      i := i + 1;
    }
  }

  method ScanWord(s: string, start: nat, cc: CharClass) returns (i: nat)
    requires start <= |s|
    ensures i == WordEnd(s, start, cc)
  {
    i := start;
    while i < |s| && WordChar(s[i], cc)
      invariant start <= i <= |s| && WordEnd(s, i, cc) == WordEnd(s, start, cc)
    {
      i := i + 1;
    }
  }

  /** Everything that is copied unchanged: the text of the token at `start`. */
  method CopyToken(s: string, start: nat, cc: CharClass) returns (text: string, i: nat)
    requires start < |s| && !IsParam(s, start, cc)
    ensures i == TokenEnd(s, start, cc) && text == s[start..i]
  {
    i := start;
    if i + 1 < |s| && s[i] == '-' && s[i + 1] == '-' {
      text, i := CopyLineComment(s, start);
    } else if i + 1 < |s| && s[i] == '/' && s[i + 1] == '*' {
      text, i := CopyBlockComment(s, start);
    } else if s[i] == '\'' {
      text, i := CopyLiteral(s, start);
    } else if s[i] == '"' {
      text, i := CopyIdentifier(s, start);
    } else if s[i] == '$' {
      i := ScanWord(s, start + 1, cc);
      if i < |s| && s[i] == '$' {
        text, i := CopyDollarBody(s, start, i + 1);
      } else {
        i := start + 1;      // not a quotation: a positional parameter or a lone sign
        text := [s[start]];
      }
    } else if s[i] == ':' && i + 1 < |s| && s[i + 1] == ':' {
      text, i := [':', ':'], i + 2;
    } else {
      text, i := [s[i]], i + 1;
    }
  }

  /** `positions` holds, for every name seen, its place in `names` counted from 1. */
  ghost predicate Indexes(positions: map<string, nat>, names: seq<string>) {
    && (forall name :: name in positions <==> name in names)
    && (forall name :: name in names ==> positions[name] == IndexOf(names, name) + 1)
  }

  lemma {:induction false} IndexInLonger(names: seq<string>, name: string, more: seq<string>)
    requires name in names
    ensures name in names + more && IndexOf(names + more, name) == IndexOf(names, name)
  {
    if names[0] != name {
      assert (names + more)[1..] == names[1..] + more;
      IndexInLonger(names[1..], name, more);
    }
  }

  lemma {:induction false} IndexOfLast(names: seq<string>, name: string)
    requires name !in names
    ensures IndexOf(names + [name], name) == |names|
  {
    if names != [] {
      assert (names + [name])[1..] == names[1..] + [name];
      IndexOfLast(names[1..], name);
    }
  }

  lemma IndexesGrow(positions: map<string, nat>, names: seq<string>, name: string)
    requires Indexes(positions, names) && name !in names
    ensures Indexes(positions[name := |names| + 1], names + [name])
  {
    IndexOfLast(names, name);
    forall other | other in names ensures IndexOf(names + [name], other) == IndexOf(names, other) {
      IndexInLonger(names, other, [name]);
    }
  }

  /** The index for one occurrence of `name`, allocating the next one on first sight. */
  method Allocate(name: string, names: seq<string>, positions: map<string, nat>)
      returns (names': seq<string>, positions': map<string, nat>, pos: nat)
    requires Indexes(positions, names)
    ensures names' == WithName(names, name) && Indexes(positions', names')
    ensures name in names' && pos == IndexOf(names', name) + 1
  {
    if name in positions {
      return names, positions, positions[name];
    }
    IndexesGrow(positions, names, name);
    names' := names + [name];
    pos := |names'|;
    positions' := positions[name := pos];
  }

  /** With `result` and `names` so far and the tokens `ts` to come, the rewriting ends in `goal` and `all`. */
  ghost predicate Pending(ts: seq<Token>, result: string, names: seq<string>, goal: string, all: seq<string>) {
    result + Flat(Pieces(ts, names)) == goal && NamesOf(ts, names) == all
  }

  lemma PendingStep(t: Token, rest: seq<Token>, result: string, names: seq<string>, goal: string,
      all: seq<string>)
    requires Pending([t] + rest, result, names, goal, all)
    ensures var names' := NamesAfter(t, names); Pending(rest, result + Render(PieceOf(t, names')), names', goal, all)
  {
    hide Render;
    var names' := NamesAfter(t, names);
    assert ([t] + rest)[1..] == rest;
    FlatCons(PieceOf(t, names'), Pieces(rest, names'));
    assert result + (Render(PieceOf(t, names')) + Flat(Pieces(rest, names')))
        == result + Render(PieceOf(t, names')) + Flat(Pieces(rest, names'));
  }

  lemma ParamToken(s: string, i: nat, cc: CharClass)
    requires i < |s| && IsParam(s, i, cc)
    ensures TokenEnd(s, i, cc) == WordEnd(s, i + 1, cc)
    ensures TokenAt(s, i, cc) == Param(s[i + 1..WordEnd(s, i + 1, cc)])
  {
  }

  /** One token: a parameter is replaced, anything else is copied. */
  method Advance(sql: string, i: nat, cc: CharClass, names: seq<string>, positions: map<string, nat>)
      returns (text: string, j: nat, names': seq<string>, positions': map<string, nat>)
    requires i < |sql| && Indexes(positions, names)
    ensures j == TokenEnd(sql, i, cc)
    ensures names' == NamesAfter(TokenAt(sql, i, cc), names) && Indexes(positions', names')
    ensures text == Render(PieceOf(TokenAt(sql, i, cc), names'))
  {
    names', positions' := names, positions;
    if IsParam(sql, i, cc) {
      ParamToken(sql, i, cc);
      var start := i + 1;
      j := ScanWord(sql, start, cc);
      var name := sql[start..j];
      var pos;
      names', positions', pos := Allocate(name, names, positions);
      text := "$" + Decimal.ToText(pos);
    } else {
      text, j := CopyToken(sql, i, cc);
    }
  }

  method Rewrite(sql: string, cc: CharClass) returns (result: string, names: seq<string>)
    ensures result == Flat(Pieces(Tokens(sql, 0, cc), []))
    ensures names == NamesOf(Tokens(sql, 0, cc), [])
  {
    result, names := "", [];
    var positions: map<string, nat> := map[];
    var i := 0;
    ghost var goal, all := Flat(Pieces(Tokens(sql, 0, cc), [])), NamesOf(Tokens(sql, 0, cc), []);
    while i < |sql|
      invariant i <= |sql| && Indexes(positions, names)
      invariant Pending(Tokens(sql, i, cc), result, names, goal, all)
      decreases |sql| - i
    {
      PendingStep(TokenAt(sql, i, cc), Tokens(sql, TokenEnd(sql, i, cc), cc), result, names, goal, all);
      var text;
      text, i, names, positions := Advance(sql, i, cc, names, positions);
      result := result + text;
    }
    assert Flat([]) == "" && result + "" == result;
  }

  lemma FlatCons(p: Piece, ps: seq<Piece>)
    ensures Flat([p] + ps) == Render(p) + Flat(ps)
  {
    assert ([p] + ps)[1..] == ps;
  }

  // ----- the names -----

  /** The parameter names in the order they are written, with repetitions. */
  function Occurrences(ts: seq<Token>): seq<string> {
    if ts == [] then [] else (if ts[0].Param? then [ts[0].name] else []) + Occurrences(ts[1..])
  }

  /** `names` is duplicate-free, has the same elements as `occ`, and lists them by first occurrence. */
  ghost predicate ByFirstOccurrence(names: seq<string>, occ: seq<string>) {
    && (forall n :: n in names <==> n in occ)
    && (forall i, j :: 0 <= i < j < |names| ==> names[i] != names[j])
    && (forall i, j :: 0 <= i < j < |names| && names[i] in occ && names[j] in occ
                       ==> IndexOf(occ, names[i]) < IndexOf(occ, names[j]))
  }

  lemma OneMoreOccurrence(names: seq<string>, occ: seq<string>, name: string)
    requires ByFirstOccurrence(names, occ)
    ensures ByFirstOccurrence(WithName(names, name), occ + [name])
  {
    if name in names { KnownOccurrence(names, occ, name); } else { NewOccurrence(names, occ, name); }
  }

  lemma KnownOccurrence(names: seq<string>, occ: seq<string>, name: string)
    requires ByFirstOccurrence(names, occ) && name in names
    ensures ByFirstOccurrence(names, occ + [name])
  {
    hide IndexOf;
    forall i, j | 0 <= i < j < |names| && names[i] in occ + [name] && names[j] in occ + [name]
      ensures IndexOf(occ + [name], names[i]) < IndexOf(occ + [name], names[j])
    {
      KeepsOrder(occ, names[i], names[j], name);
    }
  }

  lemma NewOccurrence(names: seq<string>, occ: seq<string>, name: string)
    requires ByFirstOccurrence(names, occ) && name !in names
    ensures ByFirstOccurrence(names + [name], occ + [name])
  {
    hide IndexOf;
    var names', occ' := names + [name], occ + [name];
    IndexOfLast(occ, name);
    forall i, j | 0 <= i < j < |names'| && names'[i] in occ' && names'[j] in occ'
      ensures IndexOf(occ', names'[i]) < IndexOf(occ', names'[j])
    {
      assert names'[i] == names[i] && names[i] in names && names[i] in occ;
      if j < |names| {
        assert names'[j] == names[j] && names[j] in names && names[j] in occ;
        KeepsOrder(occ, names[i], names[j], name);
      } else {
        IndexInLonger(occ, names[i], [name]);
      }
    }
  }

  lemma KeepsOrder(occ: seq<string>, a: string, b: string, name: string)
    requires a in occ && b in occ && IndexOf(occ, a) < IndexOf(occ, b)
    ensures IndexOf(occ + [name], a) < IndexOf(occ + [name], b)
  {
    hide IndexOf;
    IndexInLonger(occ, a, [name]);
    IndexInLonger(occ, b, [name]);
  }

  lemma {:induction false} NamesByOccurrence(ts: seq<Token>, names: seq<string>, occ: seq<string>)
    requires ByFirstOccurrence(names, occ)
    ensures ByFirstOccurrence(NamesOf(ts, names), occ + Occurrences(ts))
    decreases |ts|
  {
    if ts == [] {
      assert occ + [] == occ;
    } else if ts[0].Param? {
      OneMoreOccurrence(names, occ, ts[0].name);
      NamesByOccurrence(ts[1..], WithName(names, ts[0].name), occ + [ts[0].name]);
      assert occ + [ts[0].name] + Occurrences(ts[1..]) == occ + Occurrences(ts);
    } else {
      NamesByOccurrence(ts[1..], names, occ);
      assert Occurrences(ts) == Occurrences(ts[1..]);
    }
  }

  /** Each name is listed once, in the order in which the names first appear. */
  lemma NamesAreFirstOccurrences(sql: string, cc: CharClass)
    ensures ByFirstOccurrence(NamesOf(Tokens(sql, 0, cc), []), Occurrences(Tokens(sql, 0, cc)))
  {
    var ts := Tokens(sql, 0, cc);
    NamesByOccurrence(ts, [], []);
    assert [] + Occurrences(ts) == Occurrences(ts);
  }

  predicate InRange(p: Piece, n: nat) { p.Position? ==> 1 <= p.k <= n }

  /** The token a piece stands for. */
  function PutBack(p: Piece, names: seq<string>): string
    requires InRange(p, |names|)
  {
    if p.Position? then ":" + names[p.k - 1] else p.text
  }

  function PutAllBack(ps: seq<Piece>, names: seq<string>): string
    requires forall p :: p in ps ==> InRange(p, |names|)
  {
    if ps == [] then "" else PutBack(ps[0], names) + PutAllBack(ps[1..], names)
  }

  lemma {:induction false} NamesExtend(ts: seq<Token>, names: seq<string>)
    ensures names <= NamesOf(ts, names)
    decreases |ts|
  {
    if ts != [] { NamesExtend(ts[1..], NamesAfter(ts[0], names)); }
  }

  lemma {:induction false} PiecesRestore(ts: seq<Token>, names: seq<string>)
    ensures var all := NamesOf(ts, names);
            && (forall p :: p in Pieces(ts, names) ==> InRange(p, |all|))
            && PutAllBack(Pieces(ts, names), all) == Source(ts)
    decreases |ts|
  {
    if ts != [] {
      var names' := NamesAfter(ts[0], names);
      PiecesRestore(ts[1..], names');
      NamesExtend(ts[1..], names');
      var p, ps := PieceOf(ts[0], names'), Pieces(ts[1..], names');
      assert Pieces(ts, names) == [p] + ps && ([p] + ps)[1..] == ps;
      assert PutBack(p, NamesOf(ts, names)) == Spelling(ts[0]);
    }
  }

  /** Main result: every emitted index is in 1..|names|, and putting `:names[k - 1]` back for each emitted `$k`
      restores the input exactly. */
  lemma NothingIsLost(sql: string, cc: CharClass)
    ensures var ts := Tokens(sql, 0, cc); var names := NamesOf(ts, []);
            && (forall p :: p in Pieces(ts, []) ==> InRange(p, |names|))
            && PutAllBack(Pieces(ts, []), names) == sql
  {
    PiecesRestore(Tokens(sql, 0, cc), []);
    TokensSpellInput(sql, 0, cc);
    assert sql[0..] == sql;
  }

  // ----- bindings -----

  function Find<V>(params: seq<(string, V)>, name: string): Option<V> {
    if params == [] then None else if params[0].0 == name then Some(params[0].1) else Find(params[1..], name)
  }

  /** `params[i]` is the first binding of `name`. */
  predicate FirstAt<V>(params: seq<(string, V)>, name: string, i: int) {
    0 <= i < |params| && params[i].0 == name && forall j :: 0 <= j < i ==> params[j].0 != name
  }

  predicate Unbound<V>(params: seq<(string, V)>, name: string) {
    forall i :: 0 <= i < |params| ==> params[i].0 != name
  }

  /** `e` is the first of the names that has no binding. */
  ghost predicate FirstUnbound<V>(names: seq<string>, params: seq<(string, V)>, e: string) {
    exists i :: 0 <= i < |names| && names[i] == e && Unbound(params, e)
      && forall j :: 0 <= j < i ==> !Unbound(params, names[j])
  }

  lemma FirstUnboundBehind<V>(name: string, names: seq<string>, params: seq<(string, V)>, e: string)
    requires !Unbound(params, name) && FirstUnbound(names, params, e)
    ensures FirstUnbound([name] + names, params, e)
  {
    var all := [name] + names;
    var i :| 0 <= i < |names| && names[i] == e && Unbound(params, e)
      && forall j :: 0 <= j < i ==> !Unbound(params, names[j]);
    assert all[i + 1] == e;
    forall j | 0 <= j < i + 1 ensures !Unbound(params, all[j]) { if j > 0 { assert all[j] == names[j - 1]; } }
  }

  /** The search finds the value of the first binding with that very name, and nothing just when there is none. */
  lemma {:induction false} FindIsFirst<V>(params: seq<(string, V)>, name: string)
    ensures Find(params, name).None? <==> Unbound(params, name)
    ensures forall i :: FirstAt(params, name, i) ==> Find(params, name) == Some(params[i].1)
    ensures !Unbound(params, name) ==> exists i :: FirstAt(params, name, i)
  {
    if params != [] && params[0].0 == name {
      assert FirstAt(params, name, 0);
    } else if params != [] {
      var rest := params[1..];
      FindIsFirst(rest, name);
      assert forall i :: 0 <= i < |rest| ==> rest[i] == params[i + 1];
      forall i | FirstAt(params, name, i) ensures Find(params, name) == Some(params[i].1) {
        FirstBehind(params, name, i);
        assert FirstAt(rest, name, i - 1);
      }
      if !Unbound(params, name) {
        var j :| 0 <= j < |params| && params[j].0 == name;
        assert rest[j - 1].0 == name;
        var i :| FirstAt(rest, name, i);
        FirstBehind(params, name, i + 1);
        assert FirstAt(params, name, i + 1);
      }
    }
  }

  lemma FirstBehind<V>(params: seq<(string, V)>, name: string, i: int)
    requires params != [] && params[0].0 != name
    ensures FirstAt(params, name, i) <==> FirstAt(params[1..], name, i - 1)
  {
    var rest := params[1..];
    assert forall j :: 0 <= j < |rest| ==> rest[j] == params[j + 1];
    if FirstAt(rest, name, i - 1) {
      forall j | 0 <= j < i ensures params[j].0 != name { if j > 0 { assert rest[j - 1] == params[j]; } }
    }
  }

  /** `resolve_named`: the values in the order of `names`, or the first name without a value. */
  function Resolve<V>(names: seq<string>, params: seq<(string, V)>): Result<seq<V>, string> {
    if names == [] then Ok([]) else
      match Find(params, names[0])
      case None => Err(names[0])
      case Some(v) => match Resolve(names[1..], params) case Ok(vs) => Ok([v] + vs) case Err(e) => Err(e)
  }

  /** A statement with its parameters filled in. */
  datatype Bound<V> = Fixed(text: string) | Value(v: V)

  /** The original statement under the name map; fails at the first use of an unbound name. */
  function EvalNamed<V>(ts: seq<Token>, params: seq<(string, V)>): Result<seq<Bound<V>>, string> {
    if ts == [] then Ok([])
    else if ts[0].Verbatim? then
      match EvalNamed(ts[1..], params) case Ok(bs) => Ok([Fixed(ts[0].text)] + bs) case Err(e) => Err(e)
    else
      match Find(params, ts[0].name)
      case None => Err(ts[0].name)
      case Some(v) => match EvalNamed(ts[1..], params) case Ok(bs) => Ok([Value(v)] + bs) case Err(e) => Err(e)
  }

  /** The rewritten statement under the positional vector. */
  function EvalPositional<V>(ps: seq<Piece>, values: seq<V>): seq<Bound<V>>
    requires forall p :: p in ps ==> InRange(p, |values|)
  {
    if ps == [] then [] else
      assert InRange(ps[0], |values|);
      [if ps[0].Position? then Value(values[ps[0].k - 1]) else Fixed(ps[0].text)] + EvalPositional(ps[1..], values)
  }

  lemma {:induction false} ResolveFinds<V>(names: seq<string>, params: seq<(string, V)>)
    ensures match Resolve(names, params)
            case Ok(vs) => |vs| == |names| && forall i :: 0 <= i < |names| ==> Find(params, names[i]) == Some(vs[i])
            case Err(e) => exists i :: 0 <= i < |names| && names[i] == e && Find(params, e).None? &&
                             forall j :: 0 <= j < i ==> Find(params, names[j]).Some?
  {
    if names != [] && Find(params, names[0]).Some? {
      ResolveFinds(names[1..], params);
      if Resolve(names[1..], params).Err? {
        var e := Resolve(names[1..], params).error;
        var i :| 0 <= i < |names[1..]| && names[1..][i] == e &&
                  forall j :: 0 <= j < i ==> Find(params, names[1..][j]).Some?;
        assert names[i + 1] == e;
        forall j | 0 <= j < i + 1 ensures Find(params, names[j]).Some? {
          if j > 0 { assert names[j] == names[1..][j - 1]; }
        }
      }
    }
  }

  /** Resolving gives each name the value of its first binding; or fails with the first name that has none. */
  lemma ResolveAt<V>(names: seq<string>, params: seq<(string, V)>)
    ensures var r := Resolve(names, params);
            && (r.Ok? ==> |r.value| == |names| && forall i :: 0 <= i < |names| ==>
                  exists k :: FirstAt(params, names[i], k) && params[k].1 == r.value[i])
            && (r.Err? ==> FirstUnbound(names, params, r.error))
  {
    hide Find;
    ResolveFinds(names, params);
    forall n ensures Find(params, n).None? <==> Unbound(params, n) { FindIsFirst(params, n); }
    if Resolve(names, params).Ok? {
      var vs := Resolve(names, params).value;
      forall i | 0 <= i < |names| ensures exists k :: FirstAt(params, names[i], k) && params[k].1 == vs[i] {
        FindIsFirst(params, names[i]);
        var k :| FirstAt(params, names[i], k);
      }
    }
  }

  /** What the original statement means under the name map: its text as it is, and for each parameter the value of the
      first binding of its name; it means nothing just when a name it uses has no binding, the first such being the
      error. */
  lemma {:induction false} EvalNamedAt<V>(ts: seq<Token>, params: seq<(string, V)>)
    ensures var r := EvalNamed(ts, params);
            && (r.Ok? ==> Filled(ts, params, r.value))
            && (r.Err? ==> FirstUnbound(Occurrences(ts), params, r.error))
    decreases |ts|
  {
    if ts != [] {
      var rest := ts[1..];
      EvalNamedAt(rest, params);
      if ts[0].Param? { FindIsFirst(params, ts[0].name); }
      if EvalNamed(ts, params).Ok? {
        var bs := EvalNamed(ts, params).value;
        forall i | 0 <= i < |ts| ensures FilledFrom(ts[i], params, bs[i]) {
          if i > 0 { assert ts[i] == rest[i - 1] && bs[i] == EvalNamed(rest, params).value[i - 1]; }
        }
      } else if ts[0].Param? {
        var e := EvalNamed(ts, params).error;
        if Unbound(params, ts[0].name) {
          assert Occurrences(ts)[0] == e;
        } else {
          FirstUnboundBehind(ts[0].name, Occurrences(rest), params, e);
        }
      } else {
        assert Occurrences(ts) == Occurrences(rest);
      }
    }
  }

  ghost predicate FilledFrom<V>(t: Token, params: seq<(string, V)>, b: Bound<V>) {
    match t
    case Verbatim(_, text) => b == Fixed(text)
    case Param(name) => exists k :: FirstAt(params, name, k) && b == Value(params[k].1)
  }

  ghost predicate Filled<V>(ts: seq<Token>, params: seq<(string, V)>, bs: seq<Bound<V>>) {
    |bs| == |ts| && forall i :: 0 <= i < |ts| ==> FilledFrom(ts[i], params, bs[i])
  }

  lemma {:induction false} EvalAgrees<V>(ts: seq<Token>, names: seq<string>, params: seq<(string, V)>, values: seq<V>)
    requires Resolve(NamesOf(ts, names), params) == Ok(values)
    ensures |values| == |NamesOf(ts, names)| && forall p :: p in Pieces(ts, names) ==> InRange(p, |values|)
    ensures EvalNamed(ts, params) == Ok(EvalPositional(Pieces(ts, names), values))
    decreases |ts|
  {
    ResolveFinds(NamesOf(ts, names), params);
    PiecesRestore(ts, names);
    if ts != [] {
      var names' := NamesAfter(ts[0], names);
      EvalAgrees(ts[1..], names', params, values);
      NamesExtend(ts[1..], names');
      assert Pieces(ts, names) == [PieceOf(ts[0], names')] + Pieces(ts[1..], names');
    }
  }

  /** The first unbound name in the order of first occurrence is the first one the evaluation trips over. */
  lemma {:induction false} EvalFails<V>(ts: seq<Token>, names: seq<string>, params: seq<(string, V)>, e: string)
    requires Resolve(NamesOf(ts, names), params) == Err(e)
    requires forall n :: n in names ==> Find(params, n).Some?
    ensures EvalNamed(ts, params) == Err(e)
    decreases |ts|
  {
    ResolveFinds(NamesOf(ts, names), params);
    if ts != [] {
      var names' := NamesAfter(ts[0], names);
      NamesExtend(ts[1..], names');
      if ts[0].Verbatim? || Find(params, ts[0].name).Some? {
        EvalFails(ts[1..], names', params, e);
      } else {
        assert names'[|names|] == ts[0].name;
        assert forall i :: 0 <= i < |names| ==> NamesOf(ts, names)[i] == names[i];
        assert NamesOf(ts, names)[|names|] == ts[0].name;
      }
    }
  }

  /** Main result: evaluating the rewritten statement with the resolved vector equals evaluating the original with
      the name map, where every name stands for its first binding; and resolving fails exactly when some used name has
      no binding, with the first such name as the error. */
  lemma BindingsPreserved<V>(sql: string, cc: CharClass, params: seq<(string, V)>)
    ensures var ts := Tokens(sql, 0, cc); var names := NamesOf(ts, []);
            var r := Resolve(names, params);
            && (r.Err? ==> EvalNamed(ts, params) == Err(r.error) && FirstUnbound(Occurrences(ts), params, r.error))
            && (r.Ok? ==>
                  && (forall p :: p in Pieces(ts, []) ==> InRange(p, |r.value|))
                  && var bs := EvalPositional(Pieces(ts, []), r.value);
                     EvalNamed(ts, params) == Ok(bs) && Filled(ts, params, bs))
    ensures Resolve(NamesOf(Tokens(sql, 0, cc), []), params).Err? <==>
            exists n :: n in Occurrences(Tokens(sql, 0, cc)) && Unbound(params, n)
  {
    hide Find, Tokens, Filled;
    var ts := Tokens(sql, 0, cc);
    var names := NamesOf(ts, []);
    NamesAreFirstOccurrences(sql, cc);
    ResolveAt(names, params);
    EvalNamedAt(ts, params);
    match Resolve(names, params) {
      case Ok(values) =>
        EvalAgrees(ts, [], params, values);
        forall n | n in Occurrences(ts) ensures !Unbound(params, n) {
          assert n in names;
          var i :| 0 <= i < |names| && names[i] == n;
          var k :| FirstAt(params, names[i], k);
        }
      case Err(e) => EvalFails(ts, [], params, e);
    }
  }

  // ----- the text alone -----

  function Digits(s: string): (d: string)
    ensures Decimal.AllDigits(d) && |d| <= |s|
  {
    if s != "" && Decimal.IsDigit(s[0]) then [s[0]] + Digits(s[1..]) else ""
  }

  /** `s` starts with a reference to one of the first `n` positions. */
  predicate Reference(s: string, n: nat) {
    s != "" && s[0] == '$' && Digits(s[1..]) != "" && 1 <= Decimal.Value(Digits(s[1..])) <= n
  }

  /** Some `$k` with k in 1..n is written anywhere in `s`. */
  predicate Mentions(s: string, n: nat) { s != "" && (Reference(s, n) || Mentions(s[1..], n)) }

  /** Reading the result as text: every `$k` with k in range becomes `:names[k - 1]`. */
  function RestoreText(s: string, names: seq<string>): string
    decreases |s|
  {
    if s == "" then ""
    else if Reference(s, |names|) then
      var d := Digits(s[1..]);
      ":" + names[Decimal.Value(d) - 1] + RestoreText(s[1 + |d|..], names)
    else [s[0]] + RestoreText(s[1..], names)
  }

  /** Facts about the real character classes: `$` and `:` are not word characters, decimal digits are. */
  ghost predicate Ascii(cc: CharClass) {
    !WordChar('$', cc) && !WordChar(':', cc) && forall c :: Decimal.IsDigit(c) ==> WordChar(c, cc)
  }

  /** A parameter is never directly followed by a word character, and its name consists of word characters. */
  ghost predicate Separated(ts: seq<Token>, cc: CharClass)
    decreases |ts|
  {
    ts == [] ||
    ((ts[0].Param? ==>
        && (forall k :: 0 <= k < |ts[0].name| ==> WordChar(ts[0].name[k], cc))
        && (Source(ts[1..]) != "" ==> !WordChar(Source(ts[1..])[0], cc)))
     && Separated(ts[1..], cc))
  }

  lemma {:induction false} TokensSeparated(s: string, i: nat, cc: CharClass)
    requires i <= |s|
    ensures Separated(Tokens(s, i, cc), cc)
    decreases |s| - i
  {
    if i < |s| {
      var j := TokenEnd(s, i, cc);
      TokensSeparated(s, j, cc);
      TokensSpellInput(s, j, cc);
      TokenShape(s, i, cc);
      assert Tokens(s, i, cc)[1..] == Tokens(s, j, cc);
    }
  }

  lemma {:induction false} PrefixedDigits(x: string, a: string, b: string)
    requires Digits(a) == Digits(b)
    ensures Digits(x + a) == Digits(x + b)
  {
    if x != "" {
      PrefixedDigits(x[1..], a, b);
      assert (x + a)[1..] == x[1..] + a && (x + b)[1..] == x[1..] + b;
      assert (x + a)[0] == (x + b)[0] == x[0];
    } else {
      assert x + a == a && x + b == b;
    }
  }

  /** The digits at the front are the same before and after rewriting: a parameter starts with `:`, its
      replacement with `$`. */
  lemma {:induction false} SameDigitsInFront(ts: seq<Token>, names: seq<string>)
    ensures Digits(Source(ts)) == Digits(Flat(Pieces(ts, names)))
    decreases |ts|
  {
    if ts != [] {
      if ts[0].Verbatim? {
        SameDigitsInFront(ts[1..], names);
        VerbatimFirst(ts, names);
        PrefixedDigits(ts[0].text, Source(ts[1..]), Flat(Pieces(ts[1..], names)));
      } else {
        ParamFirst(ts, names);
        assert Source(ts)[0] == ':' && Flat(Pieces(ts, names))[0] == '$';
      }
    }
  }

  lemma {:induction false} NoReferenceInName(x: string, rest: string, n: nat, cc: CharClass)
    requires Ascii(cc) && forall k :: 0 <= k < |x| ==> WordChar(x[k], cc) || x[k] == ':'
    ensures Mentions(x + rest, n) == Mentions(rest, n)
  {
    if x == "" {
      assert x + rest == rest;
    } else {
      assert (x + rest)[1..] == x[1..] + rest;
      NoReferenceInName(x[1..], rest, n, cc);
    }
  }

  lemma {:induction false} DigitsThen(d: string, rest: string)
    requires Decimal.AllDigits(d) && (rest != "" ==> !Decimal.IsDigit(rest[0]))
    ensures Digits(d + rest) == d
  {
    if d == "" {
      assert d + rest == rest;
    } else {
      assert (d + rest)[1..] == d[1..] + rest;
      DigitsThen(d[1..], rest);
    }
  }

  lemma {:induction false} RestoreReference(s: string, names: seq<string>)
    requires Reference(s, |names|)
    ensures var d := Digits(s[1..]);
            RestoreText(s, names) == ":" + names[Decimal.Value(d) - 1] + RestoreText(s[1 + |d|..], names)
  {
  }

  lemma DropTwice(s: string, i: nat, j: nat)
    requires i + j <= |s|
    ensures s[i..][j..] == s[i + j..]
  {
  }

  /** The replacement of a parameter reads back as that parameter. */
  lemma {:induction false} ReadBack(s: string, d: string, rest: string, names: seq<string>)
    requires s != "" && s[0] == '$' && s[1..] == d + rest
    requires d != "" && Decimal.AllDigits(d) && 1 <= Decimal.Value(d) <= |names|
        && (rest != "" ==> !Decimal.IsDigit(rest[0]))
    ensures RestoreText(s, names) == ":" + names[Decimal.Value(d) - 1] + RestoreText(rest, names)
  {
    DigitsThen(d, rest);
    DropTwice(s, 1, |d|);
    assert (d + rest)[|d|..] == rest;
    RestoreReference(s, names);
  }

  /** What is claimed of a rewritten text and its source, for the final list of names. */
  ghost predicate RestoredExactly(out: string, src: string, names: seq<string>) {
    RestoreText(out, names) == src <==> !Mentions(src, |names|)
  }

  lemma VerbatimFirst(ts: seq<Token>, names: seq<string>)
    requires ts != [] && ts[0].Verbatim?
    ensures Source(ts) == ts[0].text + Source(ts[1..])
    ensures Flat(Pieces(ts, names)) == ts[0].text + Flat(Pieces(ts[1..], names))
    ensures NamesOf(ts, names) == NamesOf(ts[1..], names)
  {
    FlatCons(Text(ts[0].text), Pieces(ts[1..], names));
  }

  lemma PrefixAgrees(x: string, out: string, src: string, names: seq<string>)
    requires x != "" && Digits(x[1..] + out) == Digits(x[1..] + src)
    requires RestoredExactly(x[1..] + out, x[1..] + src, names)
    ensures RestoredExactly(x + out, x + src, names)
  {
    assert (x + out)[1..] == x[1..] + out && (x + src)[1..] == x[1..] + src;
    HeadAgrees(x + out, x + src, names);
  }

  /** By induction over the tokens, and inside a copied token over its characters `x`. */
  lemma {:induction false} CopiedRestored(x: string, ts: seq<Token>, names: seq<string>, cc: CharClass)
    requires Ascii(cc) && Separated(ts, cc)
    ensures RestoredExactly(x + Flat(Pieces(ts, names)), x + Source(ts), NamesOf(ts, names))
    decreases |ts|, |x|, 2
  {
    var out, src := Flat(Pieces(ts, names)), Source(ts);
    if x != "" {
      CopiedRestored(x[1..], ts, names, cc);
      SameDigitsInFront(ts, names);
      PrefixedDigits(x[1..], src, out);
      PrefixAgrees(x, out, src, NamesOf(ts, names));
    } else {
      TextRestored(ts, names, cc);
      assert x + out == out && x + src == src;
    }
  }

  lemma {:induction false} TextRestored(ts: seq<Token>, names: seq<string>, cc: CharClass)
    requires Ascii(cc) && Separated(ts, cc)
    ensures RestoredExactly(Flat(Pieces(ts, names)), Source(ts), NamesOf(ts, names))
    decreases |ts|, 0, 1
  {
    if ts != [] {
      if ts[0].Verbatim? {
        CopiedRestored(ts[0].text, ts[1..], names, cc);
        VerbatimFirst(ts, names);
      } else {
        ParamRestored(ts, names, cc);
      }
    }
  }

  /** One more character in front, the same on both sides. */
  lemma HeadAgrees(out: string, src: string, names: seq<string>)
    requires out != "" && src != "" && out[0] == src[0] && Digits(out[1..]) == Digits(src[1..])
    requires RestoredExactly(out[1..], src[1..], names)
    ensures RestoredExactly(out, src, names)
  {
    assert Reference(out, |names|) == Reference(src, |names|);
    if Reference(src, |names|) {
      RestoreReference(out, names);
      assert RestoreText(out, names)[0] == ':';
    } else {
      var r := RestoreText(out[1..], names);
      assert RestoreText(out, names) == [out[0]] + r;
      assert ([out[0]] + r)[1..] == r && src == [src[0]] + src[1..];
    }
  }

  lemma ParamFirst(ts: seq<Token>, names: seq<string>)
    requires ts != [] && ts[0].Param?
    ensures var names' := NamesAfter(ts[0], names); var all := NamesOf(ts, names);
            var k := IndexOf(names', ts[0].name) + 1;
            && Source(ts) == ":" + ts[0].name + Source(ts[1..])
            && Flat(Pieces(ts, names)) == "$" + Decimal.ToText(k) + Flat(Pieces(ts[1..], names'))
            && all == NamesOf(ts[1..], names') && 1 <= k <= |all| && all[k - 1] == ts[0].name
  {
    var names' := NamesAfter(ts[0], names);
    NamesExtend(ts[1..], names');
    FlatCons(PieceOf(ts[0], names'), Pieces(ts[1..], names'));
  }

  /** A parameter in front: its name and its replacement. */
  lemma {:induction false} ParamAgrees(name: string, d: string, out: string, src: string, names: seq<string>,
      cc: CharClass)
    requires Ascii(cc) && forall k :: 0 <= k < |name| ==> WordChar(name[k], cc)
    requires d != "" && Decimal.AllDigits(d) && 1 <= Decimal.Value(d) <= |names| && names[Decimal.Value(d) - 1] == name
    requires (src != "" ==> !WordChar(src[0], cc)) && Digits(out) == Digits(src)
    requires RestoredExactly(out, src, names)
    ensures RestoredExactly("$" + d + out, ":" + name + src, names)
  {
    NoDigitsInFront(src, cc);
    var s, front := "$" + d + out, ":" + name;
    assert s[1..] == d + out;
    ReadBack(s, d, out, names);
    NoReferenceInName(front, src, |names|, cc);
    SameFront(front, RestoreText(out, names), src);
  }

  lemma NoDigitsInFront(src: string, cc: CharClass)
    requires Ascii(cc) && (src != "" ==> !WordChar(src[0], cc))
    ensures Digits(src) == ""
  {
    if src != "" { assert !Decimal.IsDigit(src[0]); }
  }

  lemma SameFront(front: string, a: string, b: string)
    ensures front + a == front + b <==> a == b
  {
    assert (front + a)[|front|..] == a && (front + b)[|front|..] == b;
  }

  lemma ParamAgreesAt(name: string, k: nat, out: string, src: string, names: seq<string>,
      cc: CharClass)
    requires Ascii(cc) && forall i :: 0 <= i < |name| ==> WordChar(name[i], cc)
    requires 1 <= k <= |names| && names[k - 1] == name
    requires (src != "" ==> !WordChar(src[0], cc)) && Digits(out) == Digits(src)
    requires RestoredExactly(out, src, names)
    ensures RestoredExactly("$" + Decimal.ToText(k) + out, ":" + name + src, names)
  {
    Decimal.ValueOfText(k);
    ParamAgrees(name, Decimal.ToText(k), out, src, names, cc);
  }

  lemma {:induction false} ParamRestored(ts: seq<Token>, names: seq<string>, cc: CharClass)
    requires Ascii(cc) && Separated(ts, cc) && ts != [] && ts[0].Param?
    ensures RestoredExactly(Flat(Pieces(ts, names)), Source(ts), NamesOf(ts, names))
    decreases |ts|, 0, 0
  {
    hide RestoredExactly, Mentions, Flat, PieceOf;
    var names' := NamesAfter(ts[0], names);
    ParamFirst(ts, names);
    TextRestored(ts[1..], names', cc);
    SameDigitsInFront(ts[1..], names');
    ParamAgreesAt(ts[0].name, IndexOf(names', ts[0].name) + 1, Flat(Pieces(ts[1..], names')), Source(ts[1..]),
        NamesOf(ts, names), cc);
  }

  /** The rewritten text, taken as plain text, gives the input back exactly when the input does not itself write a
      `$k` that the rewriting also uses.  The documented mixing of `$1` with `:name` is the failing case. */
  lemma TextRestoresExactly(sql: string, cc: CharClass)
    requires Ascii(cc)
    ensures var ts := Tokens(sql, 0, cc); var names := NamesOf(ts, []);
            RestoreText(Flat(Pieces(ts, [])), names) == sql <==> !Mentions(sql, |names|)
  {
    var ts := Tokens(sql, 0, cc);
    TokensSeparated(sql, 0, cc);
    TokensSpellInput(sql, 0, cc);
    assert sql[0..] == sql;
    TextRestored(ts, [], cc);
  }
}
