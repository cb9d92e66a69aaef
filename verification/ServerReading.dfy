/** The rewritten text as the server reads it: `$k` is a parameter only outside comments, literals, quoted and dollar-
    quoted text, and outside identifiers, which may contain `$`.  The rewriter does not know identifiers. */
module ServerReading {
  import opened Wrappers
  import opened NamedParams
  import Decimal

  /** A statement with its parameters filled in, character by character. */
  datatype Atom<V> = Char(c: char) | Filled(v: V)

  function Chars<V>(s: string): seq<Atom<V>> { seq(|s|, i requires 0 <= i < |s| => Char(s[i])) }

  predicate IdentStart(c: char, cc: CharClass) { cc.alphabetic(c) || c == '_' }

  predicate IdentChar(c: char, cc: CharClass) { WordChar(c, cc) || c == '$' }

  predicate Quoted(k: Kind) { k != Cast && k != Kind.Plain }

  function Prepend<V>(a: seq<Atom<V>>, r: Option<seq<Atom<V>>>): Option<seq<Atom<V>>> {
    if r.None? then None else Some(a + r.value)
  }

  /** What the server makes of the front of the text, and whether an identifier may continue behind it. */
  datatype Lexeme<V> = Lexeme(atoms: seq<Atom<V>>, length: nat, word: bool)

  /** `word`: the text continues an identifier.  A parameter out of range is an error. */
  function Next<V>(r: string, word: bool, cc: CharClass, values: seq<V>): (l: Option<Lexeme<V>>)
    requires r != ""
    ensures l.Some? ==> 1 <= l.value.length <= |r|
  {
    if (word && IdentChar(r[0], cc)) || IdentStart(r[0], cc) then Some(Lexeme(Chars(r[..1]), 1, true))
    else if r[0] == '$' && Digits(r[1..]) != "" then
      var d := Digits(r[1..]);
      var k := Decimal.Value(d);
      if 1 <= k <= |values| then Some(Lexeme([Filled(values[k - 1])], 1 + |d|, false)) else None
    else
      var n := if Quoted(KindAt(r, 0, cc)) then TokenEnd(r, 0, cc) else 1;
      Some(Lexeme(Chars(r[..n]), n, false))
  }

  function Read<V>(r: string, word: bool, cc: CharClass, values: seq<V>): Option<seq<Atom<V>>>
    decreases |r|
  {
    if r == "" then Some([]) else
      match Next(r, word, cc, values)
      case None => None
      case Some(l) => Prepend(l.atoms, Read(r[l.length..], l.word, cc, values))
  }

  function Atoms<V>(bs: seq<Bound<V>>): seq<Atom<V>> {
    if bs == [] then [] else (if bs[0].Fixed? then Chars(bs[0].text) else [Filled(bs[0].v)]) + Atoms(bs[1..])
  }

  // ----- when the two readings agree -----

  /** Where the parameters of the text start, from the token at `i` on. */
  function ParamStarts(s: string, i: nat, cc: CharClass): (ps: set<nat>)
    requires i <= |s|
    ensures forall p :: p in ps ==> i <= p < |s| && s[p] == ':'
    decreases |s| - i
  {
    if i == |s| then {}
    else (if IsParam(s, i, cc) then {i} else {}) + ParamStarts(s, TokenEnd(s, i, cc), cc)
  }

  /** How far the server's construct at `i` of the source extends: a comment or quotation, or one character. */
  function Extent(s: string, i: nat, cc: CharClass): (n: nat)
    requires i < |s|
    ensures i < n <= |s|
  {
    if Quoted(KindAt(s, i, cc)) then TokenEnd(s, i, cc) else i + 1
  }

  /** What goes wrong outside identifiers: a `$` and a digit that are no parameter of the rewriter's, a `$` and a word
      in front of a parameter, whose `$` then completes the tag of a quotation, or a parameter inside quoted text. */
  predicate Spoils(s: string, i: nat, cc: CharClass, params: set<nat>)
    requires i < |s|
  {
    || (s[i] == '$' && i + 1 < |s| && Decimal.IsDigit(s[i + 1]))
    || (s[i] == '$' && WordEnd(s, i + 1, cc) in params)
    || exists p :: p in params && i < p < Extent(s, i, cc)
  }

  /** The server's lexer, run over the source with the parameters starting at `params`, meets a parameter inside an
      identifier or one of the above. */
  predicate Misread(s: string, i: nat, word: bool, cc: CharClass, params: set<nat>)
    requires i <= |s|
    decreases |s| - i
  {
    if i == |s| then false
    else if i in params then word || Misread(s, TokenEnd(s, i, cc), false, cc, params)
    else if (word && IdentChar(s[i], cc)) || IdentStart(s[i], cc) then Misread(s, i + 1, true, cc, params)
    else Spoils(s, i, cc, params) || Misread(s, Extent(s, i, cc), false, cc, params)
  }

  /** More facts about the real character classes. */
  ghost predicate Sane(cc: CharClass) {
    && Ascii(cc) && (forall c :: cc.alphabetic(c) ==> cc.alphanumeric(c))
    && forall c :: c in "'\"-/" ==> !WordChar(c, cc)
  }

  // ----- the output, token by token -----

  function Out(s: string, i: nat, cc: CharClass, names: seq<string>): string
    requires i <= |s|
  {
    Flat(Pieces(Tokens(s, i, cc), names))
  }

  lemma OutText(s: string, i: nat, cc: CharClass, names: seq<string>)
    requires i < |s| && !IsParam(s, i, cc)
    ensures Out(s, i, cc, names) == s[i..TokenEnd(s, i, cc)] + Out(s, TokenEnd(s, i, cc), cc, names)
    ensures NamesOf(Tokens(s, i, cc), names) == NamesOf(Tokens(s, TokenEnd(s, i, cc), cc), names)
  {
    var ts := Tokens(s, i, cc);
    assert ts[1..] == Tokens(s, TokenEnd(s, i, cc), cc);
    VerbatimFirst(ts, names);
  }

  /** How the output from `i` on begins. */
  lemma Front(s: string, i: nat, cc: CharClass, names: seq<string>)
    requires i <= |s|
    ensures i == |s| <==> Out(s, i, cc, names) == ""
    ensures i < |s| ==> Out(s, i, cc, names)[0] == if IsParam(s, i, cc) then '$' else s[i]
  {
    if i < |s| {
      if IsParam(s, i, cc) {
        ParamFirst(Tokens(s, i, cc), names);
      } else {
        OutText(s, i, cc, names);
      }
    }
  }

  // ----- a token's end does not depend on what follows it -----

  /** `o` at `j` begins with the `n` characters of `s` at `i`, and ends there just when `s` does. */
  ghost predicate Agree(s: string, i: nat, o: string, j: nat, n: nat) {
    && i + n <= |s| && j + n <= |o| && (i + n == |s| <==> j + n == |o|)
    && s[i..i + n] == o[j..j + n]
  }

  lemma AgreeAt(s: string, i: nat, o: string, j: nat, n: nat, k: nat)
    requires Agree(s, i, o, j, n) && k < n
    ensures s[i + k] == o[j + k]
  {
    assert s[i..i + n][k] == o[j..j + n][k];
  }

  lemma SliceOfSlice<T>(s: seq<T>, lo: nat, hi: nat, a: nat, b: nat)
    requires lo <= hi <= |s| && a <= b <= hi - lo
    ensures s[lo..hi][a..b] == s[lo + a..lo + b]
  {
    forall k | 0 <= k < b - a ensures s[lo..hi][a..b][k] == s[lo + a..lo + b][k] {
      assert s[lo..hi][a + k] == s[lo + (a + k)];
    }
  }

  lemma AgreeSlice(s: string, i: nat, o: string, j: nat, n: nat, a: nat, b: nat)
    requires Agree(s, i, o, j, n) && a <= b <= n
    ensures s[i + a..i + b] == o[j + a..j + b]
  {
    SliceOfSlice(s, i, i + n, a, b);
    SliceOfSlice(o, j, j + n, a, b);
  }

  lemma {:induction false} LineLocal(s: string, i: nat, o: string, j: nat, n: nat, k: nat)
    requires Agree(s, i, o, j, n) && k <= n && LineEnd(s, i + k) == i + n && (j + n < |o| ==> o[j + n] == '\n')
    ensures LineEnd(o, j + k) == j + n
    decreases n - k
  {
    if k < n {
      AgreeAt(s, i, o, j, n, k);
      LineLocal(s, i, o, j, n, k + 1);
    }
  }

  lemma {:induction false} BlockLocal(s: string, i: nat, o: string, j: nat, n: nat, k: nat)
    requires Agree(s, i, o, j, n) && n >= 2 && k <= n - 2
    requires BlockStop(s, i + k) == i + n - 2 && ClosesBlock(s, i + n - 2)
    ensures BlockStop(o, j + k) == j + n - 2
    decreases n - k
  {
    AgreeAt(s, i, o, j, n, k);
    AgreeAt(s, i, o, j, n, k + 1);
    if k < n - 2 { BlockLocal(s, i, o, j, n, k + 1); }
  }

  lemma {:induction false} LiteralLocal(s: string, i: nat, o: string, j: nat, n: nat, k: nat)
    requires Agree(s, i, o, j, n) && k <= n && LiteralEnd(s, i + k) == i + n
    requires j + n < |o| ==> (s[i + n] == '\'' <==> o[j + n] == '\'')
    ensures LiteralEnd(o, j + k) == j + n
    decreases n - k
  {
    if i + k < |s| && k < n {
      AgreeAt(s, i, o, j, n, k);
      if k + 1 < n { AgreeAt(s, i, o, j, n, k + 1); }
      if s[i + k] != '\'' {
        LiteralLocal(s, i, o, j, n, k + 1);
      } else if i + k + 1 < |s| && s[i + k + 1] == '\'' {
        LiteralLocal(s, i, o, j, n, k + 2);
      }
    }
  }

  lemma {:induction false} IdentifierLocal(s: string, i: nat, o: string, j: nat, n: nat, k: nat)
    requires Agree(s, i, o, j, n) && k <= n && IdentifierEnd(s, i + k) == i + n
    ensures IdentifierEnd(o, j + k) == j + n
    decreases n - k
  {
    if i + k < |s| {
      AgreeAt(s, i, o, j, n, k);
      if s[i + k] != '"' { IdentifierLocal(s, i, o, j, n, k + 1); }
    }
  }

  /** A word that ends inside the common part, or at its end if what follows there is no word character either. */
  lemma {:induction false} WordLocal(s: string, i: nat, o: string, j: nat, n: nat, k: nat, cc: CharClass)
    requires Agree(s, i, o, j, n) && k <= n && WordEnd(s, i + k, cc) <= i + n
    requires WordEnd(s, i + k, cc) == i + n && j + n < |o| ==> !WordChar(o[j + n], cc)
    ensures WordEnd(o, j + k, cc) == WordEnd(s, i + k, cc) - i + j
    decreases n - k
  {
    if k < n {
      AgreeAt(s, i, o, j, n, k);
      if WordChar(s[i + k], cc) { WordLocal(s, i, o, j, n, k + 1, cc); }
    }
  }

  /** A dollar quotation ends with its tag or with the text. */
  lemma {:induction false} DollarEnds(s: string, k: nat, tag: string)
    requires k <= |s|
    ensures DollarEnd(s, k, tag) == |s| || DollarEnd(s, k, tag) >= k + |tag|
    decreases |s| - k
  {
    if k < |s| && !(s[k] == '$' && TagAt(s, k, tag)) { DollarEnds(s, k + 1, tag); }
  }

  lemma {:induction false} DollarLocal(s: string, i: nat, o: string, j: nat, n: nat, k: nat, tag: string)
    requires Agree(s, i, o, j, n) && k <= n && DollarEnd(s, i + k, tag) == i + n && |tag| >= 1
    ensures DollarEnd(o, j + k, tag) == j + n
    decreases n - k
  {
    if i + k < |s| {
      AgreeAt(s, i, o, j, n, k);
      DollarEnds(s, i + k, tag);
      if k + |tag| <= n { AgreeSlice(s, i, o, j, n, k, k + |tag|); }
      if !(s[i + k] == '$' && TagAt(s, i + k, tag)) {
        DollarEnds(s, i + k + 1, tag);
        DollarLocal(s, i, o, j, n, k + 1, tag);
      }
    }
  }

  /** What follows the token: the same, or `$` here and the `:` of a parameter there; and the same throughout if it is
      one character at most. */
  ghost predicate NextAgrees(s: string, i: nat, o: string, j: nat, n: nat) {
    && Agree(s, i, o, j, n)
    && (j + n < |o| ==> o[j + n] == s[i + n] || (o[j + n] in "$:" && s[i + n] in "$:"))
    && (i + n + 1 >= |s| ==> s[i..] == o[j..])
  }

  lemma {:induction false} BlockWhole(s: string, i: nat, o: string, j: nat, k: nat)
    requires i <= |s| && j <= |o| && s[i..] == o[j..] && j + k <= |o|
    ensures BlockStop(s, i + k) - i == BlockStop(o, j + k) - j
    decreases |o| - k
  {
    assert |s| - i == |o| - j;
    assert forall m :: 0 <= m < |o| - j ==> s[i + m] == s[i..][m] == o[j..][m] == o[j + m];
    if j + k + 1 < |o| && !ClosesBlock(o, j + k) { BlockWhole(s, i, o, j, k + 1); }
  }

  lemma BlockSame(s: string, i: nat, o: string, j: nat, n: nat)
    requires NextAgrees(s, i, o, j, n) && n >= 2 && BlockEnd(s, i + 2) == i + n
    ensures BlockEnd(o, j + 2) == j + n
  {
    if BlockStop(s, i + 2) + 1 < |s| {
      BlockLocal(s, i, o, j, n, 2);
    } else {
      BlockWhole(s, i, o, j, 2);
      assert |s| - i == |o| - j;
    }
  }

  lemma DollarKind(s: string, i: nat, t: nat, cc: CharClass)
    requires i < |s| && s[i] == '$' && t == WordEnd(s, i + 1, cc)
    ensures KindAt(s, i, cc) == if t < |s| && s[t] == '$' then DollarQuoted else Kind.Plain
    ensures t < |s| && s[t] == '$' ==> TokenEnd(s, i, cc) == DollarEnd(s, t + 1, s[i..t + 1])
  {
  }

  lemma DollarOpens(s: string, i: nat, o: string, j: nat, n: nat, t: nat, cc: CharClass)
    requires Agree(s, i, o, j, n) && i < t < i + n && s[i] == '$' && t == WordEnd(s, i + 1, cc) && s[t] == '$'
    ensures o[j] == '$' && WordEnd(o, j + 1, cc) == j + (t - i) && o[j + (t - i)] == '$'
    ensures s[i..t + 1] == o[j..j + (t - i) + 1]
  {
    AgreeAt(s, i, o, j, n, 0);
    AgreeAt(s, i, o, j, n, t - i);
    WordLocal(s, i, o, j, n, 1, cc);
    AgreeSlice(s, i, o, j, n, 0, t + 1 - i);
  }

  lemma DollarSame(s: string, i: nat, o: string, j: nat, n: nat, cc: CharClass)
    requires i < |s| && Agree(s, i, o, j, n) && s[i] == '$' && KindAt(s, i, cc) == DollarQuoted
        && i + n == TokenEnd(s, i, cc)
    ensures j < |o| && KindAt(o, j, cc) == DollarQuoted && TokenEnd(o, j, cc) == j + n
  {
    var t := WordEnd(s, i + 1, cc);
    DollarKind(s, i, t, cc);
    DollarOpens(s, i, o, j, n, t, cc);
    DollarLocal(s, i, o, j, n, t + 1 - i, s[i..t + 1]);
    DollarKind(o, j, j + (t - i), cc);
  }

  /** Quoted text is quoted text of the same extent wherever it stands. */
  lemma QuotedSame(s: string, i: nat, o: string, j: nat, n: nat, cc: CharClass)
    requires i < |s| && Quoted(KindAt(s, i, cc)) && i + n == TokenEnd(s, i, cc) && NextAgrees(s, i, o, j, n)
    ensures j < |o| && KindAt(o, j, cc) == KindAt(s, i, cc) && TokenEnd(o, j, cc) == j + n
  {
    AgreeAt(s, i, o, j, n, 0);
    if n > 1 { AgreeAt(s, i, o, j, n, 1); }
    if StartsWith(s, i, '-', '-') {
      LineShape(s, i);
      assert n >= 2;
      LineLocal(s, i, o, j, n, 0);
    } else if StartsWith(s, i, '/', '*') {
      BlockSame(s, i, o, j, n);
    } else if s[i] == '\'' {
      LiteralLocal(s, i, o, j, n, 1);
    } else if s[i] == '"' {
      IdentifierLocal(s, i, o, j, n, 1);
    } else {
      DollarSame(s, i, o, j, n, cc);
    }
  }

  // ----- where the server is -----

  /** The server is at `i`; the rewriter's token that `i` lies in, if it is not the start of one, is copied unchanged
      and ends at `e`. */
  ghost predicate At(s: string, i: nat, e: nat, cc: CharClass, params: set<nat>) {
    && i <= e <= |s|
    && (forall p :: p in params && i <= p ==> e <= p)
    && (forall p :: e <= p ==> (p in params <==> p in ParamStarts(s, e, cc)))
  }

  /** What the server has still to read, and what it ought to read there. */
  function Rest(s: string, i: nat, e: nat, cc: CharClass, names: seq<string>): string
    requires i <= e <= |s|
  {
    s[i..e] + Out(s, e, cc, names)
  }

  ghost predicate Fits<V>(s: string, e: nat, cc: CharClass, names: seq<string>, values: seq<V>)
    requires e <= |s|
  {
    && |values| == |NamesOf(Tokens(s, e, cc), names)|
    && forall p :: p in Pieces(Tokens(s, e, cc), names) ==> InRange(p, |values|)
  }

  ghost function Meant<V>(s: string, i: nat, e: nat, cc: CharClass, names: seq<string>, values: seq<V>): seq<Atom<V>>
    requires i <= e <= |s| && Fits(s, e, cc, names, values)
  {
    Chars(s[i..e]) + Atoms(EvalPositional(Pieces(Tokens(s, e, cc), names), values))
  }

  lemma AtomsCons<V>(b: Bound<V>, bs: seq<Bound<V>>)
    ensures Atoms([b] + bs) == (if b.Fixed? then Chars(b.text) else [Filled(b.v)]) + Atoms(bs)
  {
    assert ([b] + bs)[1..] == bs;
  }

  lemma CharsConcat<V>(a: string, b: string)
    ensures Chars<V>(a + b) == Chars(a) + Chars(b)
  {
  }

  lemma NextAt(s: string, i: nat, e: nat, cc: CharClass, params: set<nat>)
    requires At(s, i, e, cc, params) && e < |s| && !IsParam(s, e, cc)
    ensures At(s, i, TokenEnd(s, e, cc), cc, params)
  {
    assert ParamStarts(s, e, cc) == ParamStarts(s, TokenEnd(s, e, cc), cc);
  }

  lemma NextRest(s: string, i: nat, e: nat, cc: CharClass, names: seq<string>)
    requires i <= e < |s| && !IsParam(s, e, cc)
    ensures Rest(s, i, TokenEnd(s, e, cc), cc, names) == Rest(s, i, e, cc, names)
  {
    var e' := TokenEnd(s, e, cc);
    OutText(s, e, cc, names);
    Regroup(s, i, e, e', Out(s, e', cc, names));
  }

  lemma Regroup(s: string, i: nat, e: nat, e': nat, w: string)
    requires i <= e <= e' <= |s|
    ensures s[i..e'] + w == s[i..e] + (s[e..e'] + w)
  {
    assert s[i..e'] == s[i..e] + s[e..e'];
  }

  lemma NextPieces(s: string, e: nat, cc: CharClass, names: seq<string>)
    requires e < |s| && !IsParam(s, e, cc)
    ensures var e' := TokenEnd(s, e, cc);
            Pieces(Tokens(s, e, cc), names) == [Text(s[e..e'])] + Pieces(Tokens(s, e', cc), names)
  {
    assert Tokens(s, e, cc)[1..] == Tokens(s, TokenEnd(s, e, cc), cc);
  }

  lemma NextMeant<V>(s: string, i: nat, e: nat, cc: CharClass, names: seq<string>, values: seq<V>)
    requires i <= e < |s| && !IsParam(s, e, cc) && Fits(s, e, cc, names, values)
    ensures var e' := TokenEnd(s, e, cc);
            Fits(s, e', cc, names, values)
            && Meant(s, i, e', cc, names, values) == Meant(s, i, e, cc, names, values)
  {
    var e' := TokenEnd(s, e, cc);
    OutText(s, e, cc, names);
    NextPieces(s, e, cc, names);
    AtomsOfPiece(Text(s[e..e']), Pieces(Tokens(s, e', cc), names), values);
    RegroupChars(s, i, e, e', Atoms(EvalPositional(Pieces(Tokens(s, e', cc), names), values)));
  }

  lemma RegroupChars<V>(s: string, i: nat, e: nat, e': nat, w: seq<Atom<V>>)
    requires i <= e <= e' <= |s|
    ensures Chars(s[i..e']) + w == Chars(s[i..e]) + (Chars(s[e..e']) + w)
  {
    assert s[i..e'] == s[i..e] + s[e..e'];
    CharsConcat<V>(s[i..e], s[e..e']);
  }

  lemma AtomsOfPiece<V>(p: Piece, rest: seq<Piece>, values: seq<V>)
    requires InRange(p, |values|) && forall q :: q in rest ==> InRange(q, |values|)
    ensures (forall q :: q in [p] + rest ==> InRange(q, |values|))
    ensures Atoms(EvalPositional([p] + rest, values))
              == (if p.Position? then [Filled(values[p.k - 1])] else Chars(p.text))
                     + Atoms(EvalPositional(rest, values))
  {
    assert ([p] + rest)[1..] == rest;
    AtomsCons(if p.Position? then Bound.Value(values[p.k - 1]) else Fixed(p.text), EvalPositional(rest, values));
  }

  /** The copied text may be taken to reach up to `to`, if no parameter starts before it. */
  lemma {:induction false} Extend<V>(s: string, i: nat, e: nat, to: nat, cc: CharClass, params: set<nat>,
      names: seq<string>, values: seq<V>) returns (e': nat)
    requires At(s, i, e, cc, params) && Fits(s, e, cc, names, values)
    requires to <= |s| && forall p :: p in params && i <= p ==> to <= p
    ensures to <= e' && At(s, i, e', cc, params) && Fits(s, e', cc, names, values)
    ensures Rest(s, i, e', cc, names) == Rest(s, i, e, cc, names)
    ensures Meant(s, i, e', cc, names, values) == Meant(s, i, e, cc, names, values)
    decreases |s| - e
  {
    if to <= e {
      e' := e;
    } else {
      assert e !in params;
      NextAt(s, i, e, cc, params);
      NextRest(s, i, e, cc, names);
      NextMeant(s, i, e, cc, names, values);
      e' := Extend(s, i, TokenEnd(s, e, cc), to, cc, params, names, values);
    }
  }

  lemma ShortRest(s: string, j: nat, cc: CharClass, names: seq<string>)
    requires j <= |s| <= j + 1
    ensures Out(s, j, cc, names) == s[j..]
  {
    if j < |s| {
      OutText(s, j, cc, names);
      assert TokenEnd(s, j, cc) == |s| && Out(s, |s|, cc, names) == "";
    }
  }

  /** The copied text stands in the output as it does in the source. */
  lemma RestAgrees(s: string, i: nat, e: nat, n: nat, cc: CharClass, names: seq<string>)
    requires i <= e <= |s| && i + n <= e
    ensures NextAgrees(s, i, Rest(s, i, e, cc, names), 0, n)
  {
    var o := Rest(s, i, e, cc, names);
    Front(s, e, cc, names);
    assert s[i..i + n] == s[i..e][..n] == o[0..n];
    if e + 1 >= |s| { ShortRest(s, e, cc, names); assert s[i..] == s[i..e] + s[e..]; }
    assert o[0..] == o;
  }

  /** The next character of the output, where the rewriter begins no parameter. */
  lemma RestNext(s: string, i: nat, e: nat, n: nat, cc: CharClass, params: set<nat>, names: seq<string>)
    requires At(s, i, e, cc, params) && i + n <= e && i + n !in params
    ensures var o := Rest(s, i, e, cc, names);
            (n < |o| <==> i + n < |s|) && (n < |o| ==> o[n] == s[i + n])
  {
    RestAgrees(s, i, e, n, cc, names);
    Front(s, e, cc, names);
  }

  // ----- what the server makes of one piece -----

  lemma SameTail<T>(a: seq<T>, b: seq<T>, c: seq<T>)
    ensures a + b == a + c <==> b == c
  {
    assert (a + b)[|a|..] == b && (a + c)[|a|..] == c;
  }

  /** A piece read as it was meant leaves the question to the rest. */
  lemma Cancel<V>(a: seq<Atom<V>>, r: Option<seq<Atom<V>>>, m: seq<Atom<V>>)
    ensures Prepend(a, r) == Some(a + m) <==> r == Some(m)
  {
    if r.Some? { SameTail(a, r.value, m); }
  }

  /** A character read where a parameter is meant, or the other way round, settles it. */
  lemma Differs<V>(a: seq<Atom<V>>, r: Option<seq<Atom<V>>>, m: seq<Atom<V>>, k: nat)
    requires k < |a| && k < |m| && a[k] != m[k]
    ensures Prepend(a, r) != Some(m)
  {
    if r.Some? { assert (a + r.value)[k] == a[k]; }
  }

  ghost predicate ReadsRight<V>(s: string, i: nat, e: nat, word: bool, cc: CharClass, names: seq<string>,
      values: seq<V>)
    requires i <= e <= |s| && Fits(s, e, cc, names, values)
  {
    Read(Rest(s, i, e, cc, names), word, cc, values) == Some(Meant(s, i, e, cc, names, values))
  }

  lemma SplitRest(s: string, i: nat, e: nat, n: nat, cc: CharClass, names: seq<string>)
    requires i + n <= e <= |s|
    ensures var o := Rest(s, i, e, cc, names);
            n <= |o| && o[..n] == s[i..i + n] && o[n..] == Rest(s, i + n, e, cc, names)
  {
    assert s[i..e] == s[i..i + n] + s[i + n..e];
  }

  lemma SplitMeant<V>(s: string, i: nat, e: nat, n: nat, cc: CharClass, names: seq<string>, values: seq<V>)
    requires i + n <= e <= |s| && Fits(s, e, cc, names, values)
    ensures Meant(s, i, e, cc, names, values) == Chars(s[i..i + n]) + Meant(s, i + n, e, cc, names, values)
  {
    assert s[i..e] == s[i..i + n] + s[i + n..e];
    CharsConcat<V>(s[i..i + n], s[i + n..e]);
  }

  /** The `n` characters at `i` are read one for one. */
  lemma CopiedRead<V>(s: string, i: nat, e: nat, n: nat, word: bool, next: bool, cc: CharClass, names: seq<string>,
      values: seq<V>)
    requires i <= i + n <= e <= |s| && Fits(s, e, cc, names, values)
    requires var o := Rest(s, i, e, cc, names);
             o != "" && n <= |o| && Next(o, word, cc, values) == Some(Lexeme(Chars(o[..n]), n, next))
    ensures ReadsRight(s, i, e, word, cc, names, values) <==> ReadsRight(s, i + n, e, next, cc, names, values)
  {
    SplitRest(s, i, e, n, cc, names);
    SplitMeant(s, i, e, n, cc, names, values);
    var o := Rest(s, i, e, cc, names);
    Cancel(Chars(o[..n]), Read(o[n..], next, cc, values), Meant(s, i + n, e, cc, names, values));
  }

  lemma NextNumber<V>(o: string, k: nat, n: nat, cc: CharClass, values: seq<V>)
    requires o != "" && o[0] == '$' && !IdentStart('$', cc) && Digits(o[1..]) != ""
    requires k == Decimal.Value(Digits(o[1..])) && 1 <= k <= |values| && n == 1 + |Digits(o[1..])|
    ensures Next(o, false, cc, values) == Some(Lexeme([Filled(values[k - 1])], n, false))
  {
  }

  lemma NumberInFront(o: string, d: string, w: string)
    requires o == "$" + d + w && Decimal.AllDigits(d) && (w != "" ==> !Decimal.IsDigit(w[0]))
    ensures o != "" && o[0] == '$' && Digits(o[1..]) == d && |d| < |o| && o[1 + |d|..] == w
  {
    DigitsThen(d, w);
    assert o[1..] == d + w;
  }

  lemma TextOfParam(t: Token, rest: seq<Token>, names: seq<string>)
    requires t.Param?
    ensures var names' := NamesAfter(t, names);
            Flat(Pieces([t] + rest, names))
              == "$" + Decimal.ToText(IndexOf(names', t.name) + 1) + Flat(Pieces(rest, names'))
  {
    assert ([t] + rest)[1..] == rest;
    ParamFirst([t] + rest, names);
  }

  lemma TokensCons(s: string, i: nat, cc: CharClass)
    requires i < |s|
    ensures Tokens(s, i, cc) == [TokenAt(s, i, cc)] + Tokens(s, TokenEnd(s, i, cc), cc)
  {
  }

  lemma ParamText(s: string, i: nat, cc: CharClass, names: seq<string>) returns (k: nat)
    requires i < |s| && IsParam(s, i, cc)
    ensures var names' := NamesAfter(TokenAt(s, i, cc), names);
            && k == IndexOf(names', TokenAt(s, i, cc).name) + 1
            && Out(s, i, cc, names) == "$" + Decimal.ToText(k) + Out(s, TokenEnd(s, i, cc), cc, names')
  {
    var t, rest := TokenAt(s, i, cc), Tokens(s, TokenEnd(s, i, cc), cc);
    k := IndexOf(NamesAfter(t, names), t.name) + 1;
    TokensCons(s, i, cc);
    TextOfParam(t, rest, names);
  }

  /** Whatever follows a parameter, its replacement does not begin with a digit. */
  lemma AfterParam(s: string, i: nat, cc: CharClass, names: seq<string>)
    requires i < |s| && IsParam(s, i, cc) && Sane(cc)
    ensures var w := Out(s, TokenEnd(s, i, cc), cc, names); w != "" ==> !Decimal.IsDigit(w[0])
  {
    Front(s, TokenEnd(s, i, cc), cc, names);
    WordStops(s, i + 1, cc);
  }

  lemma PiecesOfParam(t: Token, rest: seq<Token>, names: seq<string>)
    requires t.Param?
    ensures var names' := NamesAfter(t, names); var k := IndexOf(names', t.name) + 1;
            && Pieces([t] + rest, names) == [Position(k)] + Pieces(rest, names')
            && NamesOf([t] + rest, names) == NamesOf(rest, names') && 1 <= k <= |NamesOf(rest, names')|
  {
    assert ([t] + rest)[1..] == rest;
    ParamFirst([t] + rest, names);
  }

  /** What is meant where a parameter starts: its value, then the rest. */
  lemma ParamMeant<V>(s: string, i: nat, cc: CharClass, names: seq<string>, values: seq<V>)
    requires i < |s| && IsParam(s, i, cc) && Fits(s, i, cc, names, values)
    ensures var j, names' := TokenEnd(s, i, cc), NamesAfter(TokenAt(s, i, cc), names);
            var k := IndexOf(names', TokenAt(s, i, cc).name) + 1;
            && Fits(s, j, cc, names', values) && 1 <= k <= |values|
            && Meant(s, i, i, cc, names, values) == [Filled(values[k - 1])] + Meant(s, j, j, cc, names', values)
  {
    var j, names' := TokenEnd(s, i, cc), NamesAfter(TokenAt(s, i, cc), names);
    var k := IndexOf(names', TokenAt(s, i, cc).name) + 1;
    PiecesOfParam(TokenAt(s, i, cc), Tokens(s, j, cc), names);
    AtomsOfPiece(Position(k), Pieces(Tokens(s, j, cc), names'), values);
    NoChars(s, i, Atoms(EvalPositional(Pieces(Tokens(s, i, cc), names), values)));
    NoChars(s, j, Atoms(EvalPositional(Pieces(Tokens(s, j, cc), names'), values)));
  }

  lemma NoChars<V>(s: string, i: nat, w: seq<Atom<V>>)
    requires i <= |s|
    ensures Chars(s[i..i]) + w == w
  {
  }

  /** A parameter is lost inside an identifier. */
  lemma ParamInside<V>(o: string, cc: CharClass, m: seq<Atom<V>>, values: seq<V>)
    requires o != "" && o[0] == '$' && m != [] && m[0].Filled?
    ensures Read(o, true, cc, values) != Some(m)
  {
    assert Next(o, true, cc, values) == Some(Lexeme(Chars(o[..1]), 1, true));
    Differs(Chars(o[..1]), Read(o[1..], true, cc, values), m, 0);
  }

  /** Outside it is read as one. */
  lemma ParamOutside<V>(o: string, k: nat, w: string, cc: CharClass, m: seq<Atom<V>>, values: seq<V>)
    requires o == "$" + Decimal.ToText(k) + w && Sane(cc) && (w != "" ==> !Decimal.IsDigit(w[0])) && 1 <= k <= |values|
    ensures Read(o, false, cc, values) == Some([Filled(values[k - 1])] + m) <==> Read(w, false, cc, values) == Some(m)
  {
    Decimal.ValueOfText(k);
    NumberInFront(o, Decimal.ToText(k), w);
    NextNumber(o, k, 1 + |Decimal.ToText(k)|, cc, values);
    Cancel([Filled(values[k - 1])], Read(w, false, cc, values), m);
  }

  lemma RestAtEnd(s: string, e: nat, cc: CharClass, names: seq<string>)
    requires e <= |s|
    ensures Rest(s, e, e, cc, names) == Out(s, e, cc, names)
  {
    assert s[e..e] == "";
  }

  lemma ParamRead<V>(s: string, i: nat, word: bool, cc: CharClass, names: seq<string>, values: seq<V>)
    requires i < |s| && IsParam(s, i, cc) && Sane(cc) && Fits(s, i, cc, names, values)
    ensures var j, names' := TokenEnd(s, i, cc), NamesAfter(TokenAt(s, i, cc), names);
            && Fits(s, j, cc, names', values)
            && (ReadsRight(s, i, i, word, cc, names, values) <==>
                !word && ReadsRight(s, j, j, false, cc, names', values))
  {
    var j, names' := TokenEnd(s, i, cc), NamesAfter(TokenAt(s, i, cc), names);
    ParamMeant(s, i, cc, names, values);
    var k := ParamText(s, i, cc, names);
    AfterParam(s, i, cc, names');
    RestAtEnd(s, i, cc, names);
    RestAtEnd(s, j, cc, names');
    if word {
      ParamInside(Rest(s, i, i, cc, names), cc, Meant(s, i, i, cc, names, values), values);
    } else {
      var m := Meant(s, j, j, cc, names', values);
      ParamOutside(Rest(s, i, i, cc, names), k, Rest(s, j, j, cc, names'), cc, m, values);
    }
  }

  /** A character of an identifier. */
  lemma IdentRead<V>(s: string, i: nat, e: nat, word: bool, cc: CharClass, names: seq<string>, values: seq<V>)
    requires i < e <= |s| && Fits(s, e, cc, names, values)
    requires (word && IdentChar(s[i], cc)) || IdentStart(s[i], cc)
    ensures ReadsRight(s, i, e, word, cc, names, values) <==> ReadsRight(s, i + 1, e, true, cc, names, values)
  {
    assert Rest(s, i, e, cc, names)[0] == s[i];
    CopiedRead(s, i, e, 1, word, true, cc, names, values);
  }

  /** A `$` and a digit that the rewriter copied: the server takes them for a parameter. */
  lemma DigitRead<V>(s: string, i: nat, e: nat, word: bool, cc: CharClass, params: set<nat>, names: seq<string>,
      values: seq<V>)
    requires At(s, i, e, cc, params) && i < e && Sane(cc) && Fits(s, e, cc, names, values)
    requires s[i] == '$' && !word && i + 1 < |s| && Decimal.IsDigit(s[i + 1])
    ensures !ReadsRight(s, i, e, word, cc, names, values)
  {
    var o := Rest(s, i, e, cc, names);
    assert i + 1 in params ==> i + 1 in ParamStarts(s, e, cc);
    RestNext(s, i, e, 1, cc, params, names);
    assert o[0] == '$' && Digits(o[1..]) != "";
    assert Meant(s, i, e, cc, names, values)[0] == Char('$');
  }

  /** Where the server finds neither an identifier nor a parameter. */
  ghost predicate Ordinary(s: string, i: nat, word: bool, cc: CharClass, params: set<nat>)
    requires i <= |s|
  {
    && i < |s| && i !in params && !(word && IdentChar(s[i], cc)) && !IdentStart(s[i], cc)
    && !(s[i] == '$' && i + 1 < |s| && Decimal.IsDigit(s[i + 1]))
  }

  /** The output begins neither with a character of an identifier nor with a parameter. */
  ghost predicate OpensOther(o: string, word: bool, cc: CharClass) {
    && o != "" && !(word && IdentChar(o[0], cc)) && !IdentStart(o[0], cc)
    && !(o[0] == '$' && Digits(o[1..]) != "")
  }

  lemma OrdinaryRest(s: string, i: nat, e: nat, word: bool, cc: CharClass, params: set<nat>, names: seq<string>)
    requires At(s, i, e, cc, params) && i < e && Ordinary(s, i, word, cc, params)
    ensures var o := Rest(s, i, e, cc, names);
            OpensOther(o, word, cc) && o[0] == s[i]
  {
    RestAgrees(s, i, e, 1, cc, names);
    if i + 1 in params {
      StartsHere(s, e, cc);
      ParamFront(s, i, e, cc, names);
    } else {
      RestNext(s, i, e, 1, cc, params, names);
    }
  }

  lemma NextOther<V>(o: string, n: nat, word: bool, cc: CharClass, values: seq<V>)
    requires OpensOther(o, word, cc)
    requires n == if Quoted(KindAt(o, 0, cc)) then TokenEnd(o, 0, cc) else 1
    ensures n <= |o| && Next(o, word, cc, values) == Some(Lexeme(Chars(o[..n]), n, false))
  {
  }

  /** A construct of the server's that reaches over a parameter: the parameter is lost. */
  lemma Swallowed<V>(o: string, n: nat, word: bool, cc: CharClass, m: seq<Atom<V>>, values: seq<V>)
    requires OpensOther(o, word, cc)
    requires Quoted(KindAt(o, 0, cc)) && TokenEnd(o, 0, cc) > n && n < |m| && m[n].Filled?
    ensures Read(o, word, cc, values) != Some(m)
  {
    var k := TokenEnd(o, 0, cc);
    NextOther(o, k, word, cc, values);
    Differs(Chars(o[..k]), Read(o[k..], false, cc, values), m, n);
  }

  /** What is meant at a parameter that follows copied text. */
  lemma MeantAt<V>(s: string, i: nat, p: nat, cc: CharClass, names: seq<string>, values: seq<V>)
    requires i <= p < |s| && IsParam(s, p, cc) && Fits(s, p, cc, names, values)
    ensures var m := Meant(s, i, p, cc, names, values); p - i < |m| && m[p - i].Filled?
  {
    ParamMeant(s, p, cc, names, values);
    var w := Atoms(EvalPositional(Pieces(Tokens(s, p, cc), names), values));
    NoChars(s, p, w);
    assert (Chars(s[i..p]) + w)[p - i] == w[0];
  }

  lemma StartsHere(s: string, p: nat, cc: CharClass)
    requires p < |s| && p in ParamStarts(s, p, cc)
    ensures IsParam(s, p, cc)
  {
  }

  /** At the start of a parameter the output has a `$` and at least one more character. */
  lemma ParamFront(s: string, i: nat, p: nat, cc: CharClass, names: seq<string>)
    requires i <= p < |s| && IsParam(s, p, cc)
    ensures var o := Rest(s, i, p, cc, names); |o| >= p - i + 2 && o[p - i] == '$'
  {
    var k := ParamText(s, p, cc, names);
  }

  /** The opening of quoted text is the same in the output. */
  lemma OpeningSame(s: string, i: nat, o: string, n: nat, cc: CharClass)
    requires i + n < |s| && 0 < n < |o| && Agree(s, i, o, 0, n) && s[i + n] == ':' && Ascii(cc)
    requires Quoted(KindAt(s, i, cc)) && i + n < TokenEnd(s, i, cc)
    ensures Quoted(KindAt(o, 0, cc))
  {
    AgreeAt(s, i, o, 0, n, 0);
    if n > 1 { AgreeAt(s, i, o, 0, n, 1); }
    if s[i] == '$' {
      var t := WordEnd(s, i + 1, cc);
      WordShape(s, i + 1, cc);
      assert n > t - i;
      WordLocal(s, i, o, 0, n, 1, cc);
      AgreeAt(s, i, o, 0, n, t - i);
    }
  }

  lemma AgreePrefix(s: string, i: nat, o: string, j: nat, n: nat, m: nat)
    requires Agree(s, i, o, j, n) && m <= n && i + n < |s| && j + n < |o|
    ensures Agree(s, i, o, j, m)
  {
    AgreeSlice(s, i, o, j, n, 0, m);
  }

  lemma NotBefore(s: string, i: nat, o: string, n: nat, cc: CharClass)
    requires Agree(s, i, o, 0, n) && i < |s| && n + 2 <= |o| && Quoted(KindAt(o, 0, cc))
    requires i + n < TokenEnd(s, i, cc) && s[i + n] == ':' && o[n] == '$'
    ensures TokenEnd(o, 0, cc) > n
  {
    var m := TokenEnd(o, 0, cc);
    if m <= n {
      AgreePrefix(s, i, o, 0, n, m);
      if m < n { AgreeAt(s, i, o, 0, n, m); }
      QuotedSame(o, 0, s, i, m, cc);
    }
  }

  /** Quoted text of the source that reaches over a parameter does so in the output. */
  lemma ReachesOver(s: string, i: nat, o: string, n: nat, cc: CharClass)
    requires Agree(s, i, o, 0, n) && i + n < |s| && 0 < n && n + 2 <= |o| && s[i + n] == ':' && o[n] == '$' && Ascii(cc)
    requires Quoted(KindAt(s, i, cc)) && i + n < TokenEnd(s, i, cc)
    ensures Quoted(KindAt(o, 0, cc)) && TokenEnd(o, 0, cc) > n
  {
    OpeningSame(s, i, o, n, cc);
    NotBefore(s, i, o, n, cc);
  }

  lemma FirstParam(params: set<nat>, i: nat, q: nat) returns (p: nat)
    requires q in params && i < q
    ensures p in params && i < p <= q && forall r :: r in params && i < r ==> p <= r
    decreases q
  {
    if r :| r in params && i < r < q {
      p := FirstParam(params, i, r);
    } else {
      p := q;
    }
  }

  /** Quoted text for the server with a parameter in it. */
  lemma QuotedOver<V>(s: string, i: nat, e: nat, q: nat, word: bool, cc: CharClass, params: set<nat>,
      names: seq<string>, values: seq<V>)
    requires At(s, i, e, cc, params) && Ascii(cc) && Fits(s, e, cc, names, values)
    requires Ordinary(s, i, word, cc, params)
    requires Quoted(KindAt(s, i, cc)) && q in params && i < q < TokenEnd(s, i, cc)
    ensures !ReadsRight(s, i, e, word, cc, names, values)
  {
    var p := FirstParam(params, i, q);
    var e' := Extend(s, i, e, p, cc, params, names, values);
    assert e' == p && p in ParamStarts(s, p, cc);
    StartsHere(s, p, cc);
    RestAgrees(s, i, p, p - i, cc, names);
    ParamFront(s, i, p, cc, names);
    ReachesOver(s, i, Rest(s, i, p, cc, names), p - i, cc);
    OrdinaryRest(s, i, p, word, cc, params, names);
    MeantAt(s, i, p, cc, names, values);
    Swallowed(Rest(s, i, p, cc, names), p - i, word, cc, Meant(s, i, p, cc, names, values), values);
  }

  /** A `$` and a word up to position `n` of the output, and another `$` there, open a quotation. */
  lemma TagOpens(s: string, i: nat, o: string, n: nat, cc: CharClass)
    requires i < |s| && Agree(s, i, o, 0, n) && s[i] == '$' && WordEnd(s, i + 1, cc) == i + n && Ascii(cc)
    requires n < |o| && o[n] == '$'
    ensures Quoted(KindAt(o, 0, cc)) && TokenEnd(o, 0, cc) > n
  {
    AgreeAt(s, i, o, 0, n, 0);
    WordLocal(s, i, o, 0, n, 1, cc);
    assert o[0] == '$' && WordEnd(o, 1, cc) == n;
  }

  /** A `$` and a word in front of a parameter become a tag. */
  lemma TagOver<V>(s: string, i: nat, e: nat, word: bool, cc: CharClass, params: set<nat>, names: seq<string>,
      values: seq<V>)
    requires At(s, i, e, cc, params) && Ascii(cc) && Fits(s, e, cc, names, values)
    requires Ordinary(s, i, word, cc, params) && s[i] == '$' && WordEnd(s, i + 1, cc) in params
    ensures !ReadsRight(s, i, e, word, cc, names, values)
  {
    var p := WordEnd(s, i + 1, cc);
    NoParamInWord(s, i, e, p, cc, params);
    var e' := Extend(s, i, e, p, cc, params, names, values);
    assert e' == p && p in ParamStarts(s, p, cc);
    StartsHere(s, p, cc);
    RestAgrees(s, i, p, p - i, cc, names);
    ParamFront(s, i, p, cc, names);
    TagOpens(s, i, Rest(s, i, p, cc, names), p - i, cc);
    OrdinaryRest(s, i, p, word, cc, params, names);
    MeantAt(s, i, p, cc, names, values);
    Swallowed(Rest(s, i, p, cc, names), p - i, word, cc, Meant(s, i, p, cc, names, values), values);
  }

  /** No parameter starts at a character that is not a colon. */
  lemma NoParamInWord(s: string, i: nat, e: nat, t: nat, cc: CharClass, params: set<nat>)
    requires At(s, i, e, cc, params) && i < |s| && s[i] == '$' && t == WordEnd(s, i + 1, cc) && Ascii(cc)
    ensures forall p :: p in params && i <= p ==> t <= p
  {
    WordShape(s, i + 1, cc);
    forall p | p in params && i <= p ensures t <= p {
      assert e <= p && p in ParamStarts(s, e, cc);
    }
  }

  lemma NextQuoted<V>(s: string, i: nat, o: string, n: nat, word: bool, cc: CharClass, values: seq<V>)
    requires i < |s| && Quoted(KindAt(s, i, cc)) && i + n == TokenEnd(s, i, cc) && NextAgrees(s, i, o, 0, n)
    requires OpensOther(o, word, cc)
    ensures n <= |o| && Next(o, word, cc, values) == Some(Lexeme(Chars(o[..n]), n, false))
  {
    QuotedSame(s, i, o, 0, n, cc);
    NextOther(o, n, word, cc, values);
  }

  /** Quoted text for the server without a parameter in it is read character for character. */
  lemma QuotedRead<V>(s: string, i: nat, e: nat, n: nat, word: bool, cc: CharClass, params: set<nat>,
      names: seq<string>, values: seq<V>)
    requires At(s, i, e, cc, params) && Ordinary(s, i, word, cc, params) && Fits(s, e, cc, names, values)
    requires Quoted(KindAt(s, i, cc)) && TokenEnd(s, i, cc) == i + n <= e
    ensures ReadsRight(s, i, e, word, cc, names, values) <==> ReadsRight(s, i + n, e, false, cc, names, values)
  {
    RestAgrees(s, i, e, n, cc, names);
    OrdinaryRest(s, i, e, word, cc, params, names);
    NextQuoted(s, i, Rest(s, i, e, cc, names), n, word, cc, values);
    CopiedRead(s, i, e, n, word, false, cc, names, values);
  }

  /** A lone `$` in the output. */
  lemma NextDollar<V>(s: string, i: nat, o: string, t: nat, word: bool, cc: CharClass, values: seq<V>)
    requires i < t && Agree(s, i, o, 0, t - i) && s[i] == '$' && WordEnd(s, i + 1, cc) == t
    requires !Quoted(KindAt(s, i, cc)) && (t - i < |o| ==> t < |s| && o[t - i] == s[t])
    requires OpensOther(o, word, cc)
    ensures Next(o, word, cc, values) == Some(Lexeme(Chars(o[..1]), 1, false))
  {
    AgreeAt(s, i, o, 0, t - i, 0);
    WordStops(s, i + 1, cc);
    WordLocal(s, i, o, 0, t - i, 1, cc);
    DollarKind(s, i, t, cc);
    DollarKind(o, 0, t - i, cc);
    NextOther(o, 1, word, cc, values);
  }

  /** What opens no quoted text in the source opens none in the output. */
  lemma NextPlain<V>(s: string, i: nat, o: string, word: bool, cc: CharClass, values: seq<V>)
    requires i < |s| && NextAgrees(s, i, o, 0, 1) && s[i] != '$' && !Quoted(KindAt(s, i, cc))
    requires OpensOther(o, word, cc)
    ensures Next(o, word, cc, values) == Some(Lexeme(Chars(o[..1]), 1, false))
  {
    AgreeAt(s, i, o, 0, 1, 0);
    NextOther(o, 1, word, cc, values);
  }

  lemma DollarRead<V>(s: string, i: nat, e: nat, t: nat, word: bool, cc: CharClass, params: set<nat>,
      names: seq<string>, values: seq<V>)
    requires At(s, i, e, cc, params) && i < t <= e && Fits(s, e, cc, names, values)
    requires Ordinary(s, i, word, cc, params) && !Quoted(KindAt(s, i, cc))
    requires s[i] == '$' && WordEnd(s, i + 1, cc) == t && t !in params
    ensures ReadsRight(s, i, e, word, cc, names, values) <==> ReadsRight(s, i + 1, e, false, cc, names, values)
  {
    OrdinaryRest(s, i, e, word, cc, params, names);
    RestAgrees(s, i, e, t - i, cc, names);
    RestNext(s, i, e, t - i, cc, params, names);
    NextDollar(s, i, Rest(s, i, e, cc, names), t, word, cc, values);
    CopiedRead(s, i, e, 1, word, false, cc, names, values);
  }

  /** One other character. */
  lemma OtherRead<V>(s: string, i: nat, e: nat, word: bool, cc: CharClass, params: set<nat>, names: seq<string>,
      values: seq<V>)
    requires At(s, i, e, cc, params) && i < e && Fits(s, e, cc, names, values)
    requires Ordinary(s, i, word, cc, params) && !Quoted(KindAt(s, i, cc)) && s[i] != '$'
    ensures ReadsRight(s, i, e, word, cc, names, values) <==> ReadsRight(s, i + 1, e, false, cc, names, values)
  {
    OrdinaryRest(s, i, e, word, cc, params, names);
    RestAgrees(s, i, e, 1, cc, names);
    NextPlain(s, i, Rest(s, i, e, cc, names), word, cc, values);
    CopiedRead(s, i, e, 1, word, false, cc, names, values);
  }

  // ----- the whole text -----

  lemma AtLater(s: string, i: nat, n: nat, e: nat, cc: CharClass, params: set<nat>)
    requires At(s, i, e, cc, params) && i <= n <= e
    ensures At(s, n, e, cc, params)
  {
  }

  lemma AtParam(s: string, i: nat, cc: CharClass, params: set<nat>)
    requires At(s, i, i, cc, params) && i < |s| && IsParam(s, i, cc)
    ensures i in params && At(s, TokenEnd(s, i, cc), TokenEnd(s, i, cc), cc, params)
  {
    assert ParamStarts(s, i, cc) == {i} + ParamStarts(s, TokenEnd(s, i, cc), cc);
  }

  /** How far ahead the server looks from an ordinary character. */
  function Ahead(s: string, i: nat, cc: CharClass): (n: nat)
    requires i < |s|
    ensures i < n <= |s| && Extent(s, i, cc) <= n
  {
    if s[i] == '$' && !Quoted(KindAt(s, i, cc)) then WordEnd(s, i + 1, cc) else Extent(s, i, cc)
  }

  /** Whatever spoils the reading shows. */
  lemma SpoiltRead<V>(s: string, i: nat, e: nat, word: bool, cc: CharClass, params: set<nat>, names: seq<string>,
      values: seq<V>)
    requires At(s, i, e, cc, params) && i < e && Sane(cc) && Fits(s, e, cc, names, values)
    requires i !in params && !(word && IdentChar(s[i], cc)) && !IdentStart(s[i], cc) && Spoils(s, i, cc, params)
    ensures !ReadsRight(s, i, e, word, cc, names, values)
  {
    if s[i] == '$' && i + 1 < |s| && Decimal.IsDigit(s[i + 1]) {
      DigitRead(s, i, e, word, cc, params, names, values);
    } else if s[i] == '$' && WordEnd(s, i + 1, cc) in params {
      TagOver(s, i, e, word, cc, params, names, values);
    } else {
      var q :| q in params && i < q < Extent(s, i, cc);
      QuotedOver(s, i, e, q, word, cc, params, names, values);
    }
  }

  /** Otherwise one construct is read as it stands. */
  lemma CleanRead<V>(s: string, i: nat, e: nat, word: bool, cc: CharClass, params: set<nat>, names: seq<string>,
      values: seq<V>) returns (e': nat)
    requires At(s, i, e, cc, params) && i < e && Ascii(cc) && Fits(s, e, cc, names, values)
    requires Ordinary(s, i, word, cc, params) && !Spoils(s, i, cc, params)
    ensures At(s, Extent(s, i, cc), e', cc, params) && Fits(s, e', cc, names, values)
    ensures ReadsRight(s, i, e, word, cc, names, values) <==>
            ReadsRight(s, Extent(s, i, cc), e', false, cc, names, values)
  {
    var n, a := Extent(s, i, cc), Ahead(s, i, cc);
    NoneAhead(s, i, e, cc, params);
    e' := Extend(s, i, e, a, cc, params, names, values);
    ExtentRead(s, i, e', n, a, word, cc, params, names, values);
  }

  lemma ExtentRead<V>(s: string, i: nat, e: nat, n: nat, a: nat, word: bool, cc: CharClass, params: set<nat>,
      names: seq<string>, values: seq<V>)
    requires At(s, i, e, cc, params) && Ordinary(s, i, word, cc, params) && Fits(s, e, cc, names, values)
    requires i < n <= e && n == if Quoted(KindAt(s, i, cc)) then TokenEnd(s, i, cc) else i + 1
    requires s[i] == '$' && !Quoted(KindAt(s, i, cc)) ==> i < a <= e && a == WordEnd(s, i + 1, cc) && a !in params
    ensures ReadsRight(s, i, e, word, cc, names, values) <==> ReadsRight(s, n, e, false, cc, names, values)
  {
    if Quoted(KindAt(s, i, cc)) {
      QuotedRead(s, i, e, n - i, word, cc, params, names, values);
    } else if s[i] == '$' {
      DollarRead(s, i, e, a, word, cc, params, names, values);
    } else {
      OtherRead(s, i, e, word, cc, params, names, values);
    }
  }

  lemma NoneAhead(s: string, i: nat, e: nat, cc: CharClass, params: set<nat>)
    requires At(s, i, e, cc, params) && i < |s| && i !in params && Ascii(cc) && !Spoils(s, i, cc, params)
    ensures forall p :: p in params && i <= p ==> Ahead(s, i, cc) <= p
  {
    if s[i] == '$' { NoParamInWord(s, i, e, WordEnd(s, i + 1, cc), cc, params); }
  }

  /** From any point of the text on. */
  lemma {:induction false} ReadsExactly<V>(s: string, i: nat, e: nat, word: bool, cc: CharClass, params: set<nat>,
      names: seq<string>, values: seq<V>)
    requires At(s, i, e, cc, params) && Sane(cc) && Fits(s, e, cc, names, values)
    ensures ReadsRight(s, i, e, word, cc, names, values) <==> !Misread(s, i, word, cc, params)
    decreases |s| - i, |s| - e
  {
    if i == |s| {
      NothingLeft(s, e, word, cc, names, values);
    } else if i in params {
      assert i in ParamStarts(s, e, cc);
      StartsHere(s, i, cc);
      AtParam(s, i, cc, params);
      ParamRead(s, i, word, cc, names, values);
      var j := TokenEnd(s, i, cc);
      ReadsExactly(s, j, j, false, cc, params, NamesAfter(TokenAt(s, i, cc), names), values);
    } else if i == e {
      var e' := Extend(s, i, e, i + 1, cc, params, names, values);
      ReadsExactly(s, i, e', word, cc, params, names, values);
    } else if (word && IdentChar(s[i], cc)) || IdentStart(s[i], cc) {
      IdentRead(s, i, e, word, cc, names, values);
      AtLater(s, i, i + 1, e, cc, params);
      ReadsExactly(s, i + 1, e, true, cc, params, names, values);
    } else if Spoils(s, i, cc, params) {
      SpoiltRead(s, i, e, word, cc, params, names, values);
    } else {
      var e' := CleanRead(s, i, e, word, cc, params, names, values);
      ReadsExactly(s, Extent(s, i, cc), e', false, cc, params, names, values);
    }
  }

  lemma NothingLeft<V>(s: string, e: nat, word: bool, cc: CharClass, names: seq<string>, values: seq<V>)
    requires e == |s| && Fits(s, e, cc, names, values)
    ensures ReadsRight(s, e, e, word, cc, names, values)
  {
    assert Tokens(s, e, cc) == [] && Rest(s, e, e, cc, names) == "";
    NoChars(s, e, Atoms(EvalPositional([], values)));
  }

  /** Main result, for every text: the server reads the rewritten text with the resolved vector exactly as the
      original with the name map, if and only if its lexer, run over the original, comes to no misreading. */
  lemma TextReadsAsBound<V>(sql: string, cc: CharClass, params: seq<(string, V)>)
    requires Sane(cc)
    ensures var ts := Tokens(sql, 0, cc);
            match Resolve(NamesOf(ts, []), params)
            case Err(e) => EvalNamed(ts, params) == Err(e)
            case Ok(values) =>
              EvalNamed(ts, params).Ok? &&
              (Read(Flat(Pieces(ts, [])), false, cc, values) == Some(Atoms(EvalNamed(ts, params).value)) <==>
                !Misread(sql, 0, false, cc, ParamStarts(sql, 0, cc)))
  {
    BindingsPreserved(sql, cc, params);
    var ts := Tokens(sql, 0, cc);
    var names := NamesOf(ts, []);
    ResolveAt(names, params);
    if Resolve(names, params).Ok? {
      var values := Resolve(names, params).value;
      ReadsExactly(sql, 0, 0, false, cc, ParamStarts(sql, 0, cc), [], values);
      assert Rest(sql, 0, 0, cc, []) == Flat(Pieces(ts, []));
      assert Meant(sql, 0, 0, cc, [], values) == Atoms(EvalPositional(Pieces(ts, []), values));
    }
  }

  /** A parameter directly behind an identifier is lost: `f:a` becomes `f$1`, one identifier to the server. */
  lemma GluedParameterIsLost(cc: CharClass)
    requires Sane(cc) && cc.alphabetic('f') && cc.alphabetic('a')
    ensures var ts := Tokens("f:a", 0, cc);
            Flat(Pieces(ts, [])) == "f$1" && Misread("f:a", 0, false, cc, ParamStarts("f:a", 0, cc))
  {
    ShortTokens('f', cc);
    var ts := Tokens("f:a", 0, cc);
    assert "f:a" == ['f'] + ":a";
    assert ts == [Verbatim(Kind.Plain, "f"), Param("a")];
    assert ts[1..] == [Param("a")] && ts[1..][1..] == [];
    VerbatimFirst(ts, []);
    ParamFirst(ts[1..], []);
    assert Decimal.ToText(1) == "1";
  }

  /** Behind a digit that continues no identifier it is read as one: `1:a` becomes `1$1`. */
  lemma DigitParameterIsRead(cc: CharClass)
    requires Sane(cc) && !cc.alphabetic('1') && cc.alphabetic('a')
    ensures !Misread("1:a", 0, false, cc, ParamStarts("1:a", 0, cc))
  {
    ShortTokens('1', cc);
    assert "1:a" == ['1'] + ":a";
    assert Decimal.IsDigit('1');
    assert !Quoted(KindAt("1:a", 0, cc));
    assert Misread("1:a", 3, false, cc, ParamStarts("1:a", 0, cc)) == false;
  }

  /** One word character and then a parameter. */
  lemma ShortTokens(c: char, cc: CharClass)
    requires Sane(cc) && WordChar(c, cc) && cc.alphabetic('a')
    ensures var s := [c] + ":a";
            && Tokens(s, 0, cc) == [Verbatim(Kind.Plain, [c]), Param("a")] && ParamStarts(s, 0, cc) == {1}
            && TokenEnd(s, 1, cc) == 3
  {
    var s := [c] + ":a";
    assert c !in "'\"-/";
    assert s[0..1] == [c] && s[2..3] == "a";
    assert WordEnd(s, 2, cc) == 3 by { assert WordEnd(s, 3, cc) == 3; }
    assert Tokens(s, 3, cc) == [] && ParamStarts(s, 3, cc) == {};
    assert Tokens(s, 1, cc) == [Param("a")] && ParamStarts(s, 1, cc) == {1};
    assert TokenEnd(s, 0, cc) == 1;
  }
}
