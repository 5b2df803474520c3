/** The written form of a type, and that lexing and parsing are its inverse in both directions. */
module TypeSyntax {
  import opened Collections
  import opened TypeParser
  import opened Wrappers

  /** A run of characters the lexer keeps together. */
  predicate IsWord(w: string) {
    w != [] && ' ' !in w && '(' !in w && ')' !in w && '$' !in w
  }

  predicate IsBasic(w: string) {
    w == "string" || w == "bool" || w == "int" || w == "float" || w == "void" || w == "datetime"
  }

  predicate IsPostfix(w: string) {
    w == "set" || w == "ref" || w == "option" || w == "record"
  }

  /** Letters of either case and underscores. */
  predicate IsIdentifier(w: string) {
    w != "" && forall k :: 0 <= k < |w| ==> 'a' <= w[k] <= 'z' || 'A' <= w[k] <= 'Z' || w[k] == '_'
  }

  /** The shape of the types there are. */
  predicate Proper(t: Type) {
    match t
    case Builtin(name) => IsBasic(name)
    case Enum(_) => true
    case Ctor(params, name) =>
      if |params| == 0 then IsIdentifier(name) && !IsBasic(name) && name != "enum"
      else if |params| == 1 then IsPostfix(name) && Proper(params[0])
      else |params| == 2 && name == "map" && Proper(params[0]) && Proper(params[1])
  }

  /** Every enumeration is named by a word. */
  predicate EnumsNamed(t: Type) {
    match t
    case Builtin(_) => true
    case Enum(name) => IsWord(name)
    case Ctor(params, _) =>
      (|params| >= 1 ==> EnumsNamed(params[0])) && (|params| >= 2 ==> EnumsNamed(params[1]))
  }

  predicate WellFormed(t: Type) {
    Proper(t) && EnumsNamed(t)
  }

  /** The tokens of the bracketed form. */
  function MapOf(left: seq<string>, arrow: string, right: seq<string>, name: string): seq<string> {
    (["("] + left) + ([arrow] + ((right + [")"]) + [name]))
  }

  function Tokens(t: Type): seq<string> {
    match t
    case Builtin(name) => [name]
    case Enum(name) => ["enum", name]
    case Ctor(params, name) =>
      if |params| == 0 then [name]
      else if |params| == 1 then Tokens(params[0]) + [name]
      else MapOf(Tokens(params[0]), ARROW, Tokens(params[1]), name)
  }

  function Print(t: Type): string {
    match t
    case Builtin(name) => name
    case Enum(name) => "enum" + " " + name
    case Ctor(params, name) =>
      if |params| == 0 then name
      else if |params| == 1 then Print(params[0]) + " " + name
      else ("(" + Print(params[0])) + " " + (ARROW + " " + ((Print(params[1]) + ")") + " " + name))
  }

  // ---------------------------------------------------------------------------------------
  // Lexing what was printed.

  lemma {:induction false} ReplaceAppend(a: string, b: string, c: char, r: string)
    ensures ReplaceAll(a + b, c, r) == ReplaceAll(a, c, r) + ReplaceAll(b, c, r)
  {
    if a == [] {
      assert a + b == b;
    } else {
      assert (a + b)[1..] == a[1..] + b;
      ReplaceAppend(a[1..], b, c, r);
    }
  }

  lemma {:induction false} ReplaceNothing(s: string, c: char, r: string)
    requires c !in s
    ensures ReplaceAll(s, c, r) == s
  {
    if s != [] {
      ReplaceNothing(s[1..], c, r);
    }
  }

  lemma {:induction false} SpacedAppend(a: string, b: string)
    ensures Spaced(a + b) == Spaced(a) + Spaced(b)
  {
    ReplaceAppend(a, b, '(', " ( ");
    ReplaceAppend(ReplaceAll(a, '(', " ( "), ReplaceAll(b, '(', " ( "), ')', " ) ");
  }

  lemma {:induction false} SpacedPlain(s: string)
    requires '(' !in s && ')' !in s
    ensures Spaced(s) == s
  {
    ReplaceNothing(s, '(', " ( ");
    ReplaceNothing(s, ')', " ) ");
  }

  lemma {:induction false} SpacedBrackets()
    ensures Spaced("(") == " " + "(" + " " && Spaced(")") == " " + ")" + " "
  {
    assert ReplaceAll("(", '(', " ( ") == " ( ";
    ReplaceNothing(" ( ", ')', " ) ");
    ReplaceNothing(")", '(', " ( ");
    assert ReplaceAll(")", ')', " ) ") == " ) ";
  }

  lemma {:induction false} SplitAtSpace(piece: string, a: string, b: string)
    ensures Split(piece, a + " " + b) == Split(piece, a) + Split([], b)
    decreases |a|
  {
    var s := a + " " + b;
    if a == [] {
      assert s[1..] == b;
    } else {
      assert s[1..] == a[1..] + " " + b;
      if a[0] == ' ' {
        SplitAtSpace([], a[1..], b);
      } else {
        SplitAtSpace(piece + [a[0]], a[1..], b);
      }
    }
  }

  lemma {:induction false} NonEmptyAppend(a: seq<string>, b: seq<string>)
    ensures NonEmpty(a + b) == NonEmpty(a) + NonEmpty(b)
  {
    if a == [] {
      assert a + b == b;
    } else {
      assert (a + b)[1..] == a[1..] + b;
      NonEmptyAppend(a[1..], b);
    }
  }

  lemma {:induction false} WordsAtSpace(a: string, b: string)
    ensures Words(a + " " + b) == Words(a) + Words(b)
  {
    SplitAtSpace([], a, b);
    NonEmptyAppend(Split([], a), Split([], b));
  }

  lemma {:induction false} SplitWord(piece: string, w: string)
    requires ' ' !in w
    ensures Split(piece, w) == [piece + w]
    decreases |w|
  {
    if w == [] {
      assert piece + w == piece;
    } else {
      SplitWord(piece + [w[0]], w[1..]);
      assert piece + w == (piece + [w[0]]) + w[1..];
    }
  }

  /** The words the lexer finds in a string. */
  function LexWords(s: string): seq<string> {
    Words(Spaced(s))
  }

  lemma {:induction false} LexOneWord(w: string)
    requires IsWord(w)
    ensures LexWords(w) == [w]
  {
    SpacedPlain(w);
    SplitOneWord(w);
  }

  lemma {:induction false} SplitOneWord(w: string)
    requires w != [] && ' ' !in w
    ensures Words(w) == [w]
  {
    var none: string := [];
    SplitWord(none, w);
    assert none + w == w;
    var pieces := Split(none, w);
    assert pieces == [w] && pieces[1..] == [];
    assert NonEmpty(pieces) == [w] + NonEmpty(pieces[1..]);
  }

  lemma {:induction false} LexAtSpace(a: string, b: string)
    ensures LexWords(a + " " + b) == LexWords(a) + LexWords(b)
  {
    SpacedAppend(a + " ", b);
    SpacedAppend(a, " ");
    SpacedPlain(" ");
    WordsAtSpace(Spaced(a), Spaced(b));
  }

  lemma {:induction false} LexBrackets(a: string)
    ensures LexWords("(" + a) == ["("] + LexWords(a)
    ensures LexWords(a + ")") == LexWords(a) + [")"]
  {
    SpacedBrackets();
    SplitOneWord("(");
    SplitOneWord(")");
    WordsAroundBracket(Spaced(a), "(");
    WordsAroundBracket(Spaced(a), ")");
    SpacedAppend("(", a);
    SpacedAppend(a, ")");
  }

  lemma {:induction false} WordsAroundBracket(s: string, w: string)
    requires |w| == 1 && Words(w) == [w] && Words("") == []
    ensures Words((" " + w + " ") + s) == [w] + Words(s)
    ensures Words(s + (" " + w + " ")) == Words(s) + [w]
  {
    assert (" " + w + " ") + s == "" + " " + (w + " " + s);
    WordsAtSpace("", w + " " + s);
    WordsAtSpace(w, s);
    assert s + (" " + w + " ") == s + " " + (w + " " + "");
    WordsAtSpace(s, w + " " + "");
    WordsAtSpace(w, "");
  }

  /**
   What the lexer finds is determined by this: nothing in nothing, one word in a word, and spaces and
   brackets part the words, a space leaving nothing and a bracket itself.
   */
  lemma {:induction false} LexLaws(a: string, b: string)
    ensures LexWords("") == []
    ensures IsWord(a) ==> LexWords(a) == [a]
    ensures LexWords(a + " " + b) == LexWords(a) + LexWords(b)
    ensures LexWords(a + ("(" + b)) == LexWords(a) + (["("] + LexWords(b))
    ensures LexWords((a + ")") + b) == (LexWords(a) + [")"]) + LexWords(b)
  {
    if IsWord(a) {
      LexOneWord(a);
    }
    LexAtSpace(a, b);
    LexAtBracket(a, b);
  }

  lemma {:induction false} LexAtBracket(a: string, b: string)
    ensures LexWords(a + ("(" + b)) == LexWords(a) + (["("] + LexWords(b))
    ensures LexWords((a + ")") + b) == (LexWords(a) + [")"]) + LexWords(b)
  {
    SpacedBrackets();
    SplitOneWord("(");
    SplitOneWord(")");
    SpacedAppend(a, "(" + b);
    SpacedAppend("(", b);
    SpacedAppend(a + ")", b);
    SpacedAppend(a, ")");
    WordsBeforeBracket(Spaced(a), "(", Spaced(b));
    WordsAfterBracket(Spaced(a), ")", Spaced(b));
  }

  lemma {:induction false} WordsBeforeBracket(x: string, w: string, y: string)
    requires Words(w) == [w]
    ensures Words(x + ((" " + w + " ") + y)) == Words(x) + ([w] + Words(y))
  {
    ConcatAssociates(" " + w, " ", y);
    ConcatAssociates(" ", w, " " + y);
    ConcatAssociates(w, " ", y);
    ConcatAssociates(x, " ", w + " " + y);
    WordsAtSpace(x, w + " " + y);
    WordsAtSpace(w, y);
  }

  lemma {:induction false} WordsAfterBracket(x: string, w: string, y: string)
    requires Words(w) == [w]
    ensures Words((x + (" " + w + " ")) + y) == (Words(x) + [w]) + Words(y)
  {
    ConcatAssociates(x, " " + w, " ");
    ConcatAssociates(x, " ", w);
    WordsAtSpace(x + " " + w, y);
    WordsAtSpace(x, w);
  }

  function Spaces(n: nat): string {
    if n == 0 then "" else Spaces(n - 1) + " "
  }

  /** Words with spaces before, between and after them, as many as `gap` says and one more between. */
  function Spread(words: seq<string>, gap: nat -> nat): string {
    if words == [] then Spaces(gap(0))
    else Spread(words[..|words| - 1], gap) + " " + (words[|words| - 1] + Spaces(gap(|words|)))
  }

  lemma {:induction false} LexPadded(w: string, n: nat)
    ensures LexWords(w + Spaces(n)) == LexWords(w)
  {
    if n == 0 {
      assert w + "" == w;
    } else {
      LexPadded(w, n - 1);
      LexAtSpace(w + Spaces(n - 1), "");
      assert w + Spaces(n) == (w + Spaces(n - 1)) + " " + "";
      assert LexWords("") == [];
    }
  }

  /** However words and brackets are spaced, the lexer finds them. */
  lemma {:induction false} LexSpread(words: seq<string>, gap: nat -> nat)
    requires forall k :: 0 <= k < |words| ==> IsWord(words[k]) || words[k] == "(" || words[k] == ")"
    ensures LexWords(Spread(words, gap)) == words
  {
    if words == [] {
      LexPadded("", gap(0));
      assert "" + Spaces(gap(0)) == Spaces(gap(0));
    } else {
      var n := |words| - 1;
      LexSpread(words[..n], gap);
      LexOneMore(Spread(words[..n], gap), words[n], gap(|words|));
      assert words == words[..n] + [words[n]];
    }
  }

  lemma {:induction false} LexOneMore(s: string, w: string, n: nat)
    requires IsWord(w) || w == "(" || w == ")"
    ensures LexWords(s + " " + (w + Spaces(n))) == LexWords(s) + [w]
  {
    LexAtSpace(s, w + Spaces(n));
    LexPadded(w, n);
    LexWordOrBracket(w);
  }

  lemma {:induction false} LexWordOrBracket(w: string)
    requires IsWord(w) || w == "(" || w == ")"
    ensures LexWords(w) == [w]
  {
    if IsWord(w) {
      LexOneWord(w);
    } else {
      LexBrackets("");
      assert "(" + "" == "(" && "" + ")" == ")";
    }
  }

  lemma {:induction false} NameIsWord(w: string)
    requires IsName(w)
    ensures IsWord(w) && Lbp(w) == 1 && w != "("
  {
    assert w[0] != '(' && w[0] != ')' && w[0] != '-' && w[0] != ARROW_SIGN[0] && w[0] != '$';
  }

  lemma {:induction false} FixedNames(w: string)
    requires w in CONCRETE || w in POSTFIX || w == "map" || w == "enum"
    ensures IsName(w)
  {
  }

  /** Lexing the written form gives the tokens of the type. */
  lemma {:induction false} LexPrint(t: Type)
    requires WellFormed(t)
    ensures LexWords(Print(t)) == Tokens(t)
  {
    match t
    case Builtin(name) =>
      FixedNames(name);
      NameIsWord(name);
      LexOneWord(name);
    case Enum(name) =>
      LexOneWord("enum");
      LexOneWord(name);
      LexAtSpace("enum", name);
    case Ctor(params, name) =>
      if |params| == 0 {
        NameIsWord(name);
        LexOneWord(name);
      } else {
        FixedNames(name);
        NameIsWord(name);
        LexOneWord(name);
        LexPrint(params[0]);
        if |params| == 1 {
          LexAtSpace(Print(params[0]), name);
        } else {
          LexPrint(params[1]);
          LexPrintMap(Print(params[0]), Print(params[1]), name);
        }
      }
  }

  lemma {:induction false} PrintHasNoEnd(t: Type)
    requires WellFormed(t)
    ensures '$' !in Print(t)
  {
    match t
    case Builtin(name) =>
      FixedNames(name);
    case Enum(name) =>
    case Ctor(params, name) =>
      if |params| > 0 {
        FixedNames(name);
        PrintHasNoEnd(params[0]);
        if |params| == 2 {
          PrintHasNoEnd(params[1]);
        }
      }
  }

  lemma {:induction false} LexPrintMap(left: string, right: string, name: string)
    requires IsWord(name)
    ensures LexWords(("(" + left) + " " + (ARROW + " " + ((right + ")") + " " + name)))
         == MapOf(LexWords(left), ARROW, LexWords(right), name)
  {
    var open, close := "(" + left, right + ")";
    LexAtSpace(open, ARROW + " " + (close + " " + name));
    LexAtSpace(ARROW, close + " " + name);
    LexAtSpace(close, name);
    LexBrackets(left);
    LexBrackets(right);
    LexOneWord(ARROW);
    LexOneWord(name);
  }

  // ---------------------------------------------------------------------------------------
  // Parsing the tokens of a type.

  /** How many tokens a type takes. */
  function Size(t: Type): (n: nat)
    ensures n > 0
  {
    match t
    case Builtin(_) => 1
    case Enum(_) => 2
    case Ctor(params, _) =>
      if |params| == 0 then 1
      else if |params| == 1 then Size(params[0]) + 1
      else Size(params[0]) + Size(params[1]) + 4
  }

  predicate IsArrow(w: string) {
    w == "->" || w == "\U{2192}"
  }

  /** The tokens from `pos` on spell the type, every arrow in one of its two forms. */
  predicate Spells(tokens: seq<string>, pos: nat, t: Type)
    decreases t
  {
    && pos + Size(t) <= |tokens|
    && match t
       case Builtin(name) => tokens[pos] == name
       case Enum(name) => tokens[pos] == "enum" && tokens[pos + 1] == name
       case Ctor(params, name) =>
         if |params| == 0 then tokens[pos] == name
         else if |params| == 1 then Spells(tokens, pos, params[0]) && tokens[pos + Size(params[0])] == name
         else
           var p := pos + 1 + Size(params[0]);
           var q := p + 1 + Size(params[1]);
           && tokens[pos] == "(" && Spells(tokens, pos + 1, params[0]) && IsArrow(tokens[p])
           && Spells(tokens, p + 1, params[1]) && tokens[q] == ")" && tokens[q + 1] == name
  }

  /** The tokens of `t`, with the plain arrow, stand at `pos`. */
  ghost predicate StandsAt(t: Type, tokens: seq<string>, pos: nat) {
    pos + |Tokens(t)| <= |tokens| && tokens[pos..pos + |Tokens(t)|] == Tokens(t)
  }

  lemma {:induction false} PartStandsAt(part: Type, whole: seq<string>, at: nat, tokens: seq<string>, pos: nat)
    requires at + |Tokens(part)| <= |whole| && whole[at..at + |Tokens(part)|] == Tokens(part)
    requires pos + |whole| <= |tokens| && tokens[pos..pos + |whole|] == whole
    ensures StandsAt(part, tokens, pos + at)
  {
    SliceOfSlice(tokens, pos, pos + |whole|, at, at + |Tokens(part)|);
  }

  /** The written form spells the type. */
  lemma {:induction false} TokensSpell(t: Type, tokens: seq<string>, pos: nat)
    requires Proper(t) && StandsAt(t, tokens, pos)
    ensures Size(t) == |Tokens(t)| && Spells(tokens, pos, t)
    decreases Size(t), 2
  {
    assert tokens[pos] == Tokens(t)[0] by { assert tokens[pos..pos + |Tokens(t)|][0] == tokens[pos]; }
    match t
    case Builtin(_) =>
    case Enum(name) =>
      assert tokens[pos + 1] == tokens[pos..pos + 2][1] == name;
    case Ctor(params, name) =>
      if |params| == 1 {
        PostfixSpells(t, tokens, pos);
      } else if |params| == 2 {
        MapForm(t);
        MapSpells(params[0], params[1], tokens, pos);
      }
  }

  lemma {:induction false} PostfixSpells(t: Type, tokens: seq<string>, pos: nat)
    requires Proper(t) && StandsAt(t, tokens, pos) && t.Ctor? && |t.params| == 1
    ensures Size(t) == |Tokens(t)| && Spells(tokens, pos, t)
    decreases Size(t), 0
  {
    var inner, whole := t.params[0], Tokens(t);
    var n := |Tokens(inner)|;
    assert whole[0..n] == Tokens(inner);
    PartStandsAt(inner, whole, 0, tokens, pos);
    TokensSpell(inner, tokens, pos);
    assert tokens[pos + n] == tokens[pos..pos + |whole|][n] == t.name;
  }

  lemma {:induction false} MapSpells(left: Type, right: Type, tokens: seq<string>, pos: nat)
    requires Proper(left) && Proper(right)
    requires var whole := MapOf(Tokens(left), ARROW, Tokens(right), "map");
             pos + |whole| <= |tokens| && tokens[pos..pos + |whole|] == whole
    ensures Size(left) == |Tokens(left)| && Size(right) == |Tokens(right)|
    ensures Spells(tokens, pos, Ctor([left, right], "map"))
    decreases Size(left) + Size(right) + 4, 1
  {
    MapLayout(tokens, pos, Tokens(left), Tokens(right));
    var p := pos + 1 + |Tokens(left)|;
    SidesSpell(tokens, pos, left, p, right, p + 1 + |Tokens(right)|);
  }

  lemma {:induction false} SidesSpell(tokens: seq<string>, pos: nat, left: Type, p: nat, right: Type, q: nat)
    requires Proper(left) && Proper(right) && p == pos + 1 + |Tokens(left)| && q == p + 1 + |Tokens(right)|
    requires StandsAt(left, tokens, pos + 1) && StandsAt(right, tokens, p + 1)
    requires q + 2 <= |tokens| && tokens[pos] == "(" && IsArrow(tokens[p]) && tokens[q] == ")" && tokens[q + 1] == "map"
    ensures Size(left) == |Tokens(left)| && Size(right) == |Tokens(right)|
    ensures Spells(tokens, pos, Ctor([left, right], "map"))
    decreases Size(left) + Size(right) + 4, 0
  {
    TokensSpell(left, tokens, pos + 1);
    TokensSpell(right, tokens, p + 1);
    MapTogether(tokens, pos, p, q, left, right);
  }

  /** A bracketed form is spelled if its two sides are. */
  lemma {:induction false} MapTogether(tokens: seq<string>, pos: nat, p: nat, q: nat, left: Type, right: Type)
    requires p == pos + 1 + Size(left) && q == p + 1 + Size(right) && q + 2 <= |tokens|
    requires tokens[pos] == "(" && IsArrow(tokens[p]) && tokens[q] == ")" && tokens[q + 1] == "map"
    requires Spells(tokens, pos + 1, left) && Spells(tokens, p + 1, right)
    ensures var t := Ctor([left, right], "map");
            Spells(tokens, pos, t) && Size(t) == q + 2 - pos && (Proper(left) && Proper(right) ==> Proper(t))
  {
  }

  lemma {:induction false} MapForm(t: Type)
    requires Proper(t) && t.Ctor? && |t.params| == 2
    ensures t == Ctor([t.params[0], t.params[1]], "map")
    ensures Tokens(t) == MapOf(Tokens(t.params[0]), ARROW, Tokens(t.params[1]), "map")
    ensures Size(t) == Size(t.params[0]) + Size(t.params[1]) + 4
    ensures |Tokens(t)| == |Tokens(t.params[0])| + |Tokens(t.params[1])| + 4
  {
    assert t.params == [t.params[0], t.params[1]];
  }

  /** Where the parts of a bracketed form stand. */
  lemma {:induction false} MapLayout(tokens: seq<string>, pos: nat, left: seq<string>, right: seq<string>)
    requires var whole := MapOf(left, ARROW, right, "map");
             pos + |whole| <= |tokens| && tokens[pos..pos + |whole|] == whole
    ensures var n, m := |left|, |right|;
            && pos + 4 + n + m <= |tokens|
            && tokens[pos] == "(" && tokens[pos + 1..pos + 1 + n] == left && tokens[pos + 1 + n] == ARROW
            && tokens[pos + 2 + n..pos + 2 + n + m] == right
            && tokens[pos + 2 + n + m] == ")" && tokens[pos + 3 + n + m] == "map"
  {
    var whole, n, m := MapOf(left, ARROW, right, "map"), |left|, |right|;
    forall k | 0 <= k < |whole| ensures tokens[pos + k] == whole[k] {
      assert tokens[pos..pos + |whole|][k] == tokens[pos + k];
    }
    assert whole[0] == "(" && whole[1 + n] == ARROW && whole[2 + n + m] == ")" && whole[3 + n + m] == "map";
    SliceOfSlice(tokens, pos, pos + |whole|, 1, 1 + n);
    SliceOfSlice(tokens, pos, pos + |whole|, 2 + n, 2 + n + m);
    MapParts(left, right);
  }

  lemma {:induction false} MapParts(left: seq<string>, right: seq<string>)
    ensures var whole, n, m := MapOf(left, ARROW, right, "map"), |left|, |right|;
            whole[1..1 + n] == left && whole[2 + n..2 + n + m] == right
  {
  }

  /** Parsing at the tokens of a type is continuing after them with that type in hand. */
  lemma {:induction false} ParsesTokens(t: Type, tokens: seq<string>, pos: nat)
    requires Proper(t) && Spells(tokens, pos, t) && pos + Size(t) < |tokens|
    ensures ParseTypeAt(tokens, pos, 0) == ParseLoop(tokens, pos + Size(t), t, 0)
    decreases Size(t), 2
  {
    match t
    case Builtin(name) =>
      FixedNames(name);
      NameIsWord(name);
    case Enum(_) =>
    case Ctor(params, name) =>
      if |params| == 0 {
        NameIsWord(name);
      } else if |params| == 1 {
        assert t == Ctor([params[0]], name);
        ParsesPostfix(params[0], name, tokens, pos);
      } else {
        var left, p, right, q := MapApart(t, tokens, pos);
        ParsesSides(tokens, pos, left, p, right, q);
      }
  }

  lemma {:induction false} ParsesPostfix(inner: Type, name: string, tokens: seq<string>, pos: nat)
    requires Proper(inner) && Spells(tokens, pos, inner) && pos + Size(inner) + 1 < |tokens|
    requires IsPostfix(name) && tokens[pos + Size(inner)] == name
    ensures ParseTypeAt(tokens, pos, 0) == ParseLoop(tokens, pos + Size(inner) + 1, Ctor([inner], name), 0)
    decreases Size(inner) + 1, 0
  {
    ParsesTokens(inner, tokens, pos);
    FixedNames(name);
    NameIsWord(name);
  }

  /** A bracketed form that is spelled, taken apart. */
  lemma {:induction false} MapApart(t: Type, tokens: seq<string>, pos: nat) returns (left: Type, p: nat, right: Type, q: nat)
    requires Proper(t) && Spells(tokens, pos, t) && t.Ctor? && |t.params| == 2
    ensures t == Ctor([left, right], "map") && Proper(left) && Proper(right)
    ensures p == pos + 1 + Size(left) && q == p + 1 + Size(right) && q + 2 == pos + Size(t) <= |tokens|
    ensures tokens[pos] == "(" && IsArrow(tokens[p]) && tokens[q] == ")" && tokens[q + 1] == "map"
    ensures Spells(tokens, pos + 1, left) && Spells(tokens, p + 1, right)
  {
    MapForm(t);
    left, right := t.params[0], t.params[1];
    p := pos + 1 + Size(left);
    q := p + 1 + Size(right);
  }

  lemma {:induction false} ParsesSides(tokens: seq<string>, pos: nat, left: Type, p: nat, right: Type, q: nat)
    requires p == pos + 1 + Size(left) && q == p + 1 + Size(right) && q + 2 < |tokens|
    requires tokens[pos] == "(" && IsArrow(tokens[p]) && tokens[q] == ")" && tokens[q + 1] == "map"
    requires Proper(left) && Proper(right) && Spells(tokens, pos + 1, left) && Spells(tokens, p + 1, right)
    ensures ParseTypeAt(tokens, pos, 0) == ParseLoop(tokens, q + 2, Ctor([left, right], "map"), 0)
    decreases Size(left) + Size(right) + 4, 0
  {
    ParsesTokens(left, tokens, pos + 1);
    ParsesTokens(right, tokens, p + 1);
    MapStep(tokens, pos, pos + 1, p, p + 1, q, left, right);
  }

  /** The bracketed form, once its two sides are known to parse. */
  lemma {:induction false} MapStep(tokens: seq<string>, pos: nat, p1: nat, p2: nat, p3: nat, p4: nat, left: Type, right: Type)
    requires p1 == pos + 1 <= p2 && p3 == p2 + 1 <= p4 && p4 + 2 < |tokens|
    requires tokens[pos] == "(" && IsArrow(tokens[p2]) && tokens[p4] == ")" && tokens[p4 + 1] == "map"
    requires ParseTypeAt(tokens, p1, 0) == ParseLoop(tokens, p2, left, 0)
    requires ParseTypeAt(tokens, p3, 0) == ParseLoop(tokens, p4, right, 0)
    ensures ParseTypeAt(tokens, pos, 0) == ParseLoop(tokens, p4 + 2, Ctor([left, right], "map"), 0)
  {
    assert ParseLoop(tokens, p2, left, 0) == Ok(left, p2);
    assert ParseLoop(tokens, p4, right, 0) == Ok(right, p4);
    assert NudMap(tokens, p1) == Ok(Ctor([left, right], "map"), p4 + 2);
  }

  /** Parsing the tokens of a type before any token that does not bind gives it and stops there. */
  lemma {:induction false} ParseStops(t: Type, tokens: seq<string>, pos: nat)
    requires Proper(t) && Spells(tokens, pos, t) && pos + Size(t) < |tokens|
    requires Lbp(tokens[pos + Size(t)]) <= 0
    ensures ParseTypeAt(tokens, pos, 0) == Ok(t, pos + Size(t))
  {
    ParsesTokens(t, tokens, pos);
  }

  /** An input is of a type if its words spell that type, all of them. */
  predicate IsOf(input: string, t: Type) {
    '$' !in input && Proper(t) && Size(t) == |LexWords(input)| && Spells(LexWords(input), 0, t)
  }

  /** Only the tokens that a type takes matter. */
  lemma {:induction false} SpellsSame(a: seq<string>, b: seq<string>, pos: nat, t: Type)
    requires Proper(t) && Spells(a, pos, t) && pos + Size(t) <= |b|
    requires forall k :: pos <= k < pos + Size(t) ==> a[k] == b[k]
    ensures Spells(b, pos, t)
    decreases t
  {
    match t
    case Builtin(_) =>
    case Enum(_) =>
    case Ctor(params, _) =>
      if |params| == 1 {
        SpellsSame(a, b, pos, params[0]);
      } else if |params| == 2 {
        SpellsSame(a, b, pos + 1, params[0]);
        SpellsSame(a, b, pos + 2 + Size(params[0]), params[1]);
      }
  }

  /** Every input of a type is parsed to it. */
  lemma {:induction false} ParseComplete(input: string, t: Type)
    requires IsOf(input, t)
    ensures ParseSingle(input) == Some(t)
  {
    var words := LexWords(input);
    SpellsSame(words, words + [END], 0, t);
    ParseStops(t, words + [END], 0);
  }

  /** Printing a type and parsing the result gives it back. */
  lemma {:induction false} ParsePrint(t: Type)
    requires WellFormed(t)
    ensures ParseSingle(Print(t)) == Some(t)
  {
    LexPrint(t);
    PrintHasNoEnd(t);
    assert Tokens(t)[0..|Tokens(t)|] == Tokens(t);
    TokensSpell(t, Tokens(t), 0);
    ParseComplete(Print(t), t);
  }

  /** However the words of a type are spaced and its arrows written, they parse to it. */
  lemma {:induction false} ParseSpread(t: Type, words: seq<string>, gap: nat -> nat)
    requires WellFormed(t) && Size(t) == |words| && Spells(words, 0, t)
    ensures ParseSingle(Spread(words, gap)) == Some(t)
  {
    forall k | 0 <= k < |words| ensures IsWord(words[k]) || words[k] == "(" || words[k] == ")" {
      SpelledInWords(words, 0, t, k);
    }
    LexSpread(words, gap);
    SpreadHasNoEnd(words, gap);
    ParseComplete(Spread(words, gap), t);
  }

  lemma {:induction false} SpelledInWords(words: seq<string>, pos: nat, t: Type, k: nat)
    requires WellFormed(t) && Spells(words, pos, t) && pos <= k < pos + Size(t)
    ensures IsWord(words[k]) || words[k] == "(" || words[k] == ")"
    decreases t
  {
    match t
    case Builtin(name) =>
      FixedNames(name);
      NameIsWord(name);
    case Enum(_) =>
    case Ctor(params, name) =>
      if |params| == 0 {
        NameIsWord(name);
      } else {
        FixedNames(name);
        NameIsWord(name);
        var from := if |params| == 1 then pos else pos + 1;
        if from <= k < from + Size(params[0]) {
          SpelledInWords(words, from, params[0], k);
        } else if |params| == 2 && from + Size(params[0]) < k < from + Size(params[0]) + 1 + Size(params[1]) {
          SpelledInWords(words, from + Size(params[0]) + 1, params[1], k);
        }
      }
  }

  lemma {:induction false} SpacesOnly(n: nat)
    ensures '$' !in Spaces(n)
  {
    if n > 0 {
      SpacesOnly(n - 1);
    }
  }

  lemma {:induction false} SpreadHasNoEnd(words: seq<string>, gap: nat -> nat)
    requires forall k :: 0 <= k < |words| ==> IsWord(words[k]) || words[k] == "(" || words[k] == ")"
    ensures '$' !in Spread(words, gap)
  {
    if words == [] {
      SpacesOnly(gap(0));
    } else {
      SpreadHasNoEnd(words[..|words| - 1], gap);
      SpacesOnly(gap(|words|));
    }
  }

  // ---------------------------------------------------------------------------------------
  // What parses is spelled by the input.

  /** A type with an enumeration whose name was missing from the input. */
  predicate NamelessEnum(t: Type) {
    match t
    case Builtin(_) => false
    case Enum(name) => name == END
    case Ctor(params, _) => exists i :: 0 <= i < |params| && NamelessEnum(params[i])
  }

  /** Parsing `[from, to)` of the tokens gave a type that they spell. */
  ghost predicate Reads(tokens: seq<string>, from: nat, to: nat, t: Type) {
    from <= to <= |tokens| && (NamelessEnum(t) || (Proper(t) && to == from + Size(t) && Spells(tokens, from, t)))
  }

  lemma {:induction false} LoopReads(tokens: seq<string>, start: nat, pos: nat, left: Type)
    requires start <= pos <= |tokens| && Reads(tokens, start, pos, left)
    ensures var r := ParseLoop(tokens, pos, left, 0); r.Ok? ==> Reads(tokens, start, r.pos, r.value)
    decreases |tokens| - pos
  {
    var (t, next) := Shifted(tokens, pos);
    if Lbp(t) > 0 && t in POSTFIX {
      var longer := Ctor([left], t);
      assert longer.params[0] == left;
      LoopReads(tokens, start, next, longer);
    }
  }

  /** Every successful parse has read tokens that spell its result. */
  lemma {:induction false} ParseReads(tokens: seq<string>, pos: nat)
    requires pos <= |tokens|
    ensures var r := ParseTypeAt(tokens, pos, 0); r.Ok? ==> Reads(tokens, pos, r.pos, r.value)
    decreases |tokens| - pos, 2
  {
    var (t, next) := Shifted(tokens, pos);
    var left := Nud(tokens, next, t);
    if left.Ok? {
      assert t != END;
      if t == "(" {
        MapReads(tokens, pos);
      }
      LoopReads(tokens, pos, left.pos, left.value);
    }
  }

  lemma {:induction false} MapReads(tokens: seq<string>, pos: nat)
    requires pos + 1 <= |tokens| && tokens[pos] == "("
    ensures var r := NudMap(tokens, pos + 1); r.Ok? ==> Reads(tokens, pos, r.pos, r.value)
    decreases |tokens| - pos, 1
  {
    if NudMap(tokens, pos + 1).Ok? {
      var left, p, right, q := MapShape(tokens, pos);
      SidesRead(tokens, pos, left, p, right, q);
    }
  }

  /** Both sides of a bracketed form have been read, and so has the whole. */
  lemma {:induction false} SidesRead(tokens: seq<string>, pos: nat, left: Type, p: nat, right: Type, q: nat)
    requires pos < p < q && q + 2 <= |tokens|
    requires tokens[pos] == "(" && IsArrow(tokens[p]) && tokens[q] == ")" && tokens[q + 1] == "map"
    requires ParseTypeAt(tokens, pos + 1, 0) == Ok(left, p) && ParseTypeAt(tokens, p + 1, 0) == Ok(right, q)
    ensures Reads(tokens, pos, q + 2, Ctor([left, right], "map"))
    decreases |tokens| - pos, 0
  {
    ParseReads(tokens, pos + 1);
    ParseReads(tokens, p + 1);
    SidesTogether(tokens, pos, p, q, left, right);
  }

  lemma {:induction false} SidesTogether(tokens: seq<string>, pos: nat, p: nat, q: nat, left: Type, right: Type)
    requires pos < p < q && q + 2 <= |tokens|
    requires tokens[pos] == "(" && IsArrow(tokens[p]) && tokens[q] == ")" && tokens[q + 1] == "map"
    requires Reads(tokens, pos + 1, p, left) && Reads(tokens, p + 1, q, right)
    ensures Reads(tokens, pos, q + 2, Ctor([left, right], "map"))
  {
    var params := [left, right];
    assert params[0] == left && params[1] == right;
    if !NamelessEnum(left) && !NamelessEnum(right) {
      MapTogether(tokens, pos, p, q, left, right);
    }
  }

  /** What a bracketed form that parses consists of. */
  lemma {:induction false} MapShape(tokens: seq<string>, pos: nat) returns (left: Type, p: nat, right: Type, q: nat)
    requires pos + 1 <= |tokens| && NudMap(tokens, pos + 1).Ok?
    ensures pos < p < q && q + 2 <= |tokens|
    ensures IsArrow(tokens[p]) && tokens[q] == ")" && tokens[q + 1] == "map"
    ensures ParseTypeAt(tokens, pos + 1, 0) == Ok(left, p) && ParseTypeAt(tokens, p + 1, 0) == Ok(right, q)
    ensures NudMap(tokens, pos + 1) == Ok(Ctor([left, right], "map"), q + 2)
  {
    var first := ParseTypeAt(tokens, pos + 1, 0);
    left, p := first.value, first.pos;
    var second := ParseTypeAt(tokens, p + 1, 0);
    right, q := second.value, second.pos;
  }

  /** The end marker stands at the end and nowhere else, as the lexer leaves it. */
  ghost predicate EndOnlyLast(tokens: seq<string>) {
    tokens != [] && forall k :: 0 <= k < |tokens| - 1 ==> tokens[k] != END
  }

  /** What a parse from `pos` can look like if an enumeration has no name: just that, at the end. */
  ghost predicate NamelessIsAll(tokens: seq<string>, pos: nat, r: Result<Type>) {
    r.Ok? && NamelessEnum(r.value) ==> r.value == Enum(END) && pos + 2 == |tokens| == r.pos + 1 && tokens[pos] == "enum"
  }

  lemma {:induction false} LoopNameless(tokens: seq<string>, start: nat, pos: nat, left: Type)
    requires EndOnlyLast(tokens) && pos < |tokens|
    requires NamelessIsAll(tokens, start, Ok(left, pos))
    ensures NamelessIsAll(tokens, start, ParseLoop(tokens, pos, left, 0))
    decreases |tokens| - pos
  {
    var (t, next) := Shifted(tokens, pos);
    if Lbp(t) > 0 && t in POSTFIX {
      LoopNameless(tokens, start, next, Ctor([left], t));
    }
  }

  lemma {:induction false} ParseNameless(tokens: seq<string>, pos: nat)
    requires EndOnlyLast(tokens) && pos < |tokens|
    ensures NamelessIsAll(tokens, pos, ParseTypeAt(tokens, pos, 0))
    decreases |tokens| - pos, 2
  {
    var (t, next) := Shifted(tokens, pos);
    var left := Nud(tokens, next, t);
    if left.Ok? {
      if t == "(" {
        MapNameless(tokens, next);
      }
      assert NamelessIsAll(tokens, pos, left);
      LoopNameless(tokens, pos, left.pos, left.value);
    }
  }

  lemma {:induction false} MapNameless(tokens: seq<string>, pos: nat)
    requires EndOnlyLast(tokens) && pos < |tokens|
    ensures var r := NudMap(tokens, pos); r.Ok? ==> !NamelessEnum(r.value)
    decreases |tokens| - pos, 3
  {
    var r := NudMap(tokens, pos);
    if r.Ok? {
      ParseNameless(tokens, pos);
      var left := ParseTypeAt(tokens, pos, 0);
      var p1 := Shifted(tokens, left.pos).1;
      ParseNameless(tokens, p1);
      var right := ParseTypeAt(tokens, p1, 0);
      assert !NamelessEnum(left.value) && !NamelessEnum(right.value);
      assert r.value.params == [left.value, right.value];
    }
  }

  /** What parses is of the type it is parsed to, unless it is the bare word `enum`. */
  lemma {:induction false} ParseSound(input: string)
    requires ParseSingle(input).Some?
    ensures IsOf(input, ParseSingle(input).value) <==> LexWords(input) != ["enum"]
    ensures LexWords(input) == ["enum"] ==> ParseSingle(input).value == Enum(END)
  {
    var tokens, words := Lex(input).value, LexWords(input);
    ParseReads(tokens, 0);
    var r := ParseTypeAt(tokens, 0, 0);
    NoEndInside(input);
    EndsAtEnd(words, r.pos);
    assert tokens[..|words|] == words;
    ParseNameless(tokens, 0);
    if words == ["enum"] {
      assert tokens[0] == "enum";
      assert r.value == Enum(END);
    }
    if NamelessEnum(r.value) {
      assert |words| == 1 && words[0] == "enum";
    } else {
      SpellsSame(tokens, words, 0, r.value);
    }
  }

  /** Exactly the inputs of a type are parsed to it; besides, the bare word `enum` is, to one enumeration. */
  lemma {:induction false} ParseIff(input: string, t: Type)
    ensures ParseSingle(input) == Some(t) <==> IsOf(input, t) || (LexWords(input) == ["enum"] && '$' !in input && t == Enum("$"))
  {
    if ParseSingle(input) == Some(t) {
      ParseSound(input);
    } else if IsOf(input, t) {
      ParseComplete(input, t);
    } else if LexWords(input) == ["enum"] && '$' !in input {
      var tokens := ["enum"] + [END];
      assert tokens[0] == "enum";
      assert ParseTypeAt(tokens, 0, 0) == Ok(Enum(END), 1);
    }
  }

  /** The bare `enum` does parse, as an enumeration named by the end marker. */
  lemma {:induction false} BareEnumParses()
    ensures ParseSingle("enum") == Some(Enum(END))
  {
    LexOneWord("enum");
    var tokens := ["enum"] + [END];
    assert tokens[0] == "enum";
    assert ParseTypeAt(tokens, 0, 0) == Ok(Enum(END), 1);
  }

  lemma {:induction false} EndsAtEnd(words: seq<string>, pos: nat)
    requires pos <= |words| && END !in words && Shifted(words + [END], pos).0 == END
    ensures pos == |words|
  {
    if pos < |words| {
      Contains(words, pos);
    }
  }

  lemma {:induction false} Contains<T>(s: seq<T>, i: nat)
    requires i < |s|
    ensures s[i] in s
  {
  }

  lemma {:induction false} NoEndInside(input: string)
    requires '$' !in input
    ensures END !in LexWords(input)
  {
    ReplaceKeepsOut(input, '(', " ( ");
    ReplaceKeepsOut(ReplaceAll(input, '(', " ( "), ')', " ) ");
    SplitKeepsOut([], Spaced(input));
    var pieces := Split([], Spaced(input));
    assert END[0] == '$';
    assert END !in pieces;
    if END in LexWords(input) {
      NonEmptyFrom(pieces, END);
    }
  }

  lemma {:induction false} ReplaceKeepsOut(s: string, c: char, r: string)
    requires '$' !in s && '$' !in r
    ensures '$' !in ReplaceAll(s, c, r)
  {
    if s != [] {
      ReplaceKeepsOut(s[1..], c, r);
    }
  }

  lemma {:induction false} SplitKeepsOut(piece: string, rest: string)
    requires '$' !in piece && '$' !in rest
    ensures forall k :: 0 <= k < |Split(piece, rest)| ==> '$' !in Split(piece, rest)[k]
    decreases |rest|
  {
    if rest != [] {
      if rest[0] == ' ' {
        SplitKeepsOut([], rest[1..]);
      } else {
        SplitKeepsOut(piece + [rest[0]], rest[1..]);
      }
    }
  }

  lemma {:induction false} NonEmptyFrom(pieces: seq<string>, w: string)
    requires w in NonEmpty(pieces)
    ensures w in pieces
  {
    if pieces != [] && pieces[0] != w {
      NonEmptyFrom(pieces[1..], w);
    }
  }
}
