/** The lexer and the operator-precedence parser for XenAPI types, and the syntax they invert. */
module TypeParser {
  import opened Wrappers

  datatype Type =
    | Builtin(name: string)
    | Enum(name: string)
    | Ctor(params: seq<Type>, name: string)

  datatype Result<+T> = Ok(value: T, pos: nat) | Throw

  const END: string := "$"
  const ARROW: string := "->"
  const ARROW_SIGN: string := "\U{2192}"
  const CONCRETE: seq<string> := ["string", "bool", "int", "float", "void", "datetime"]
  const POSTFIX: seq<string> := ["set", "ref", "option", "record"]

  // ---------------------------------------------------------------------------------------
  // Lexing.

  function ReplaceAll(s: string, c: char, r: string): string {
    if s == [] then [] else (if s[0] == c then r else [s[0]]) + ReplaceAll(s[1..], c, r)
  }

  /** `split(' ')`, the first piece of which has begun with `piece`. */
  function Split(piece: string, rest: string): seq<string>
    decreases |rest|
  {
    if rest == [] then [piece]
    else if rest[0] == ' ' then [piece] + Split([], rest[1..])
    else Split(piece + [rest[0]], rest[1..])
  }

  function NonEmpty(pieces: seq<string>): seq<string> {
    if pieces == [] then []
    else (if pieces[0] == [] then [] else [pieces[0]]) + NonEmpty(pieces[1..])
  }

  function Words(s: string): seq<string> {
    NonEmpty(Split([], s))
  }

  function Spaced(s: string): string {
    ReplaceAll(ReplaceAll(s, '(', " ( "), ')', " ) ")
  }

  /** The tokens of a string, or nothing if it contains the end marker. */
  function Lex(s: string): Option<seq<string>> {
    if '$' in s then None else Some(Words(Spaced(s)) + [END])
  }

  // ---------------------------------------------------------------------------------------
  // Parsing, as a function of the tokens and the position.

  function Shifted(tokens: seq<string>, pos: nat): (r: (string, nat))
    ensures r.0 != END ==> r.1 == pos + 1 < |tokens|
    ensures r.1 == pos || r.1 == pos + 1 < |tokens|
  {
    if pos >= |tokens| - 1 then (END, pos) else (tokens[pos], pos + 1)
  }

  function Lbp(t: string): int {
    if t == "(" || t == ")" || t == ARROW || t == ARROW_SIGN then 0
    else if t == END then -1
    else 1
  }

  /** `/^[a-zA-Z_]+$/` */
  predicate IsName(t: string) {
    t != [] && forall k :: 0 <= k < |t| ==> 'a' <= t[k] <= 'z' || 'A' <= t[k] <= 'Z' || t[k] == '_'
  }

  function Nud(tokens: seq<string>, pos: nat, t: string): (r: Result<Type>)
    requires pos <= |tokens|
    ensures r.Ok? ==> pos <= r.pos <= |tokens| && (pos < |tokens| ==> r.pos < |tokens|)
    decreases |tokens| - pos + (if t == "(" then 1 else 0), 0
  {
    if t == "enum" then
      var (name, next) := Shifted(tokens, pos);
      Ok(Enum(name), next)
    else if t == "(" then NudMap(tokens, pos)
    else if t in CONCRETE then Ok(Builtin(t), pos)
    else if IsName(t) then Ok(Ctor([], t), pos)
    else Throw
  }

  /** `( left -> right ) map`, after the opening bracket. */
  function NudMap(tokens: seq<string>, pos: nat): (r: Result<Type>)
    requires pos <= |tokens|
    ensures r.Ok? ==> pos <= r.pos <= |tokens| && (pos < |tokens| ==> r.pos < |tokens|)
    decreases |tokens| - pos, 3
  {
    var left := ParseTypeAt(tokens, pos, 0);
    if left.Throw? then Throw else
    var (arrow, p1) := Shifted(tokens, left.pos);
    if arrow != ARROW && arrow != ARROW_SIGN then Throw else
    var right := ParseTypeAt(tokens, p1, 0);
    if right.Throw? then Throw else
    var (close, p2) := Shifted(tokens, right.pos);
    if close != ")" then Throw else
    var (kind, p3) := Shifted(tokens, p2);
    if kind != "map" then Throw else Ok(Ctor([left.value, right.value], "map"), p3)
  }

  function ParseTypeAt(tokens: seq<string>, pos: nat, rbp: int): (r: Result<Type>)
    requires pos <= |tokens|
    ensures r.Ok? ==> pos <= r.pos <= |tokens| && (pos < |tokens| ==> r.pos < |tokens|)
    decreases |tokens| - pos, 2
  {
    var (t, next) := Shifted(tokens, pos);
    var left := Nud(tokens, next, t);
    if left.Throw? then Throw else ParseLoop(tokens, left.pos, left.value, rbp)
  }

  function ParseLoop(tokens: seq<string>, pos: nat, left: Type, rbp: int): (r: Result<Type>)
    requires pos <= |tokens|
    ensures r.Ok? ==> pos <= r.pos <= |tokens| && (pos < |tokens| ==> r.pos < |tokens|)
    decreases |tokens| - pos, 1
  {
    var (t, next) := Shifted(tokens, pos);
    if Lbp(t) <= rbp then Ok(left, pos)
    else if t in POSTFIX then ParseLoop(tokens, next, Ctor([left], t), rbp)
    else Throw
  }

  function ParseSingle(input: string): Option<Type> {
    var tokens := Lex(input);
    if tokens.None? then None
    else
      var r := ParseTypeAt(tokens.value, 0, 0);
      if r.Ok? && Shifted(tokens.value, r.pos).0 == END then Some(r.value) else None
  }

  // ---------------------------------------------------------------------------------------
  // Parsing, as the source does it: a lexer that moves.

  class Lexer {
    const tokens: seq<string>
    var pos: nat

    constructor (tokens: seq<string>)
      ensures this.tokens == tokens && pos == 0
    {
      this.tokens := tokens;
      pos := 0;
    }

    method Shift() returns (t: string)
      modifies this
      ensures (t, pos) == Shifted(tokens, old(pos))
    {
      if pos >= |tokens| - 1 {
        return END;
      }
      t := tokens[pos];
      pos := pos + 1;
    }

    method Peek() returns (t: string)
      modifies this
      ensures t == Shifted(tokens, pos).0 && pos == old(pos)
    {
      var prev := pos;
      t := Shift();
      pos := prev;
    }

    /** Shifts a token and says whether it is one of those expected. */
    method Expect(ts: seq<string>) returns (ok: bool)
      modifies this
      ensures pos == Shifted(tokens, old(pos)).1
      ensures ok <==> Shifted(tokens, old(pos)).0 in ts
    {
      var l := Shift();
      ok := false;
      for i := 0 to |ts|
        invariant ok <==> l in ts[..i]
        invariant (l, pos) == Shifted(tokens, old(pos))
      {
        assert ts[..i + 1] == ts[..i] + [ts[i]];
        if l == ts[i] {
          ok := true;
        }
      }
      assert ts[..|ts|] == ts;
    }

    /** What parsing from `start` gives, of which only the position has to be kept. */
    ghost predicate Parsed(r: Option<Type>, spec: Result<Type>)
      reads this
    {
      if spec.Throw? then r == None else r == Some(spec.value) && pos == spec.pos
    }

    method ParseNud(t: string) returns (r: Option<Type>)
      requires pos <= |tokens|
      modifies this
      ensures pos <= |tokens| || r == None
      ensures Parsed(r, Nud(tokens, old(pos), t))
      decreases |tokens| - pos + (if t == "(" then 1 else 0), 0
    {
      if t == "enum" {
        var name := Shift();
        return Some(Enum(name));
      }
      if t == "(" {
        r := ParseMap();
        return;
      }
      if t in CONCRETE { return Some(Builtin(t)); }
      if IsName(t) { return Some(Ctor([], t)); }
      return None;
    }

    method ParseMap() returns (r: Option<Type>)
      requires pos <= |tokens|
      modifies this
      ensures pos <= |tokens| || r == None
      ensures Parsed(r, NudMap(tokens, old(pos)))
      decreases |tokens| - pos, 3
    {
      var left := ParseType(0);
      if left == None { return None; }
      ghost var arrow, close, kind := Shifted(tokens, pos).0, END, END;
      var ok := Expect([ARROW, ARROW_SIGN]);
      assert ok <==> arrow == ARROW || arrow == ARROW_SIGN;
      if !ok { return None; }
      var right := ParseType(0);
      if right == None { return None; }
      close := Shifted(tokens, pos).0;
      ok := Expect([")"]);
      assert ok <==> close == ")";
      if !ok { return None; }
      kind := Shifted(tokens, pos).0;
      ok := Expect(["map"]);
      assert ok <==> kind == "map";
      if !ok { return None; }
      r := Some(Ctor([left.value, right.value], "map"));
    }

    method ParseType(rbp: int) returns (r: Option<Type>)
      requires pos <= |tokens|
      modifies this
      ensures pos <= |tokens| || r == None
      ensures Parsed(r, ParseTypeAt(tokens, old(pos), rbp))
      decreases |tokens| - pos, 2
    {
      var t := Shift();
      var first := ParseNud(t);
      if first == None { return None; }
      var left := first.value;
      ghost var goal := ParseLoop(tokens, pos, left, rbp);
      var next := Peek();
      while Lbp(next) > rbp
        invariant pos <= |tokens|
        invariant next == Shifted(tokens, pos).0
        invariant ParseLoop(tokens, pos, left, rbp) == goal
        decreases |tokens| - pos
      {
        next := Shift();
        if next !in POSTFIX { return None; }
        left := Ctor([left], next);
        next := Peek();
      }
      r := Some(left);
    }
  }

  method ParseSingleType(input: string) returns (r: Option<Type>)
    ensures r == ParseSingle(input)
  {
    var tokens := Lex(input);
    if tokens == None { return None; }
    var lexer := new Lexer(tokens.value);
    r := lexer.ParseType(0);
    if r == None { return None; }
    var rest := lexer.Peek();
    if rest != END { return None; }
  }
}
