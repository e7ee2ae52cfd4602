/**
 What jsmn should make of a text (jsmn.c, non-strict, without parent links): a lexer that
 does not know about tokens, a reference parser with a stack of open brackets, and what it
 means that a token array describes a forest.
*/
module JsmnSpec {
  datatype Kind = OBJECT | ARRAY | STRING | PRIMITIVE

  // An open object or array has end == -1.
  datatype Token = Token(kind: Kind, start: int, end: int, size: int)

  const ERROR_NOMEM := -1
  const ERROR_INVAL := -2
  const ERROR_PART := -3

  // ------------------------------------------------------------ the lexer

  predicate AtEnd(js: string, len: nat, pos: nat)
    requires len <= |js|
  {
    pos >= len || js[pos] == '\0'
  }

  predicate Delimiter(c: char) {
    c in ":\t\r\n ,]}"
  }

  predicate Unprintable(c: char) {
    c as int < 32 || c as int >= 127
  }

  // Where a primitive ends: at a delimiter or at the end of the text.
  function PrimitiveEnd(js: string, len: nat, pos: nat): (r: int)
    requires len <= |js|
    ensures r == ERROR_INVAL || (pos <= r && (r <= len || r == pos))
    ensures pos < len && r == pos ==> js[pos] == '\0' || Delimiter(js[pos])
    decreases len - pos
  {
    if AtEnd(js, len, pos) || Delimiter(js[pos]) then pos
    else if Unprintable(js[pos]) then ERROR_INVAL
    else PrimitiveEnd(js, len, pos + 1)
  }

  predicate Hex(c: char) {
    '0' <= c <= '9' || 'A' <= c <= 'F' || 'a' <= c <= 'f'
  }

  // The position after at most n hexadecimal digits.
  function HexEnd(js: string, len: nat, pos: nat, n: nat): (r: int)
    requires len <= |js|
    ensures r == ERROR_INVAL || pos <= r
    ensures r > len ==> r == pos
    decreases n
  {
    if n == 0 || AtEnd(js, len, pos) then pos
    else if !Hex(js[pos]) then ERROR_INVAL
    else HexEnd(js, len, pos + 1, n - 1)
  }

  // Where the string whose contents start at pos has its closing quote.
  function StringEnd(js: string, len: nat, pos: nat): (r: int)
    requires len <= |js|
    ensures r == ERROR_INVAL || r == ERROR_PART || (pos <= r < len && js[r] == '\"')
    decreases len - pos
  {
    if AtEnd(js, len, pos) then ERROR_PART
    else if js[pos] == '\"' then pos
    else if js[pos] == '\\' && pos + 1 < len then
      if js[pos + 1] == 'u' then
        var h := HexEnd(js, len, pos + 2, 4);
        if h < 0 then h else StringEnd(js, len, h)
      else if js[pos + 1] in "\"/\\bfrnt" then StringEnd(js, len, pos + 2)
      else ERROR_INVAL
    else StringEnd(js, len, pos + 1)
  }

  // What stands at a position. A value token covers start..end, and next is where to go on.
  datatype Lexeme = Stop | Fail(error: int) | Open(kind: Kind) | Close(kind: Kind) | Value(kind: Kind, start: nat, end: nat, next: nat)
    | Colon | Comma | Space

  function Lex(js: string, len: nat, pos: nat): (x: Lexeme)
    requires len <= |js|
    ensures x.Value? ==> pos <= x.start <= x.end <= x.next <= len && pos < x.next
    ensures x.Fail? ==> x.error == ERROR_INVAL || x.error == ERROR_PART
    ensures x.Open? || x.Close? ==> x.kind == OBJECT || x.kind == ARRAY
    ensures !x.Stop? ==> pos < len
  {
    if AtEnd(js, len, pos) then Stop
    else match js[pos]
      case '{' => Open(OBJECT)
      case '[' => Open(ARRAY)
      case '}' => Close(OBJECT)
      case ']' => Close(ARRAY)
      case '\"' => var e := StringEnd(js, len, pos + 1); if e < 0 then Fail(e) else Value(STRING, pos + 1, e, e + 1)
      case '\t' => Space
      case '\r' => Space
      case '\n' => Space
      case ' ' => Space
      case ':' => Colon
      case ',' => Comma
      case _ => var e := PrimitiveEnd(js, len, pos); if e < 0 then Fail(e) else Value(PRIMITIVE, pos, e, e)
  }

  // ------------------------------------------------------------ what the lexer reads, character by character

  /** Each structural character has its own lexeme, white space none; anything else begins a string or a primitive. */
  lemma LexemeOf(js: string, len: nat, pos: nat)
    requires len <= |js|
    ensures Lex(js, len, pos) == Stop <==> pos >= len || js[pos] == '\0'
    ensures Lex(js, len, pos) == Open(OBJECT) <==> pos < len && js[pos] == '{'
    ensures Lex(js, len, pos) == Open(ARRAY) <==> pos < len && js[pos] == '['
    ensures Lex(js, len, pos) == Close(OBJECT) <==> pos < len && js[pos] == '}'
    ensures Lex(js, len, pos) == Close(ARRAY) <==> pos < len && js[pos] == ']'
    ensures Lex(js, len, pos) == Colon <==> pos < len && js[pos] == ':'
    ensures Lex(js, len, pos) == Comma <==> pos < len && js[pos] == ','
    ensures Lex(js, len, pos) == Space <==> pos < len && (js[pos] == ' ' || js[pos] == '\t' || js[pos] == '\r' || js[pos] == '\n')
  {
  }

  /**
   A primitive is the longest run of characters from '!' to '~' without : , ] }. It is read if it is followed by one of
   these four, by white space or by the end of the text, and is an error before any other character.
  */
  lemma {:induction false} PrimitiveIs(js: string, len: nat, pos: nat) returns (x: nat)
    requires pos <= len <= |js|
    ensures pos <= x <= len
    ensures forall y :: pos <= y < x ==> 32 < js[y] as int < 127 && js[y] != ':' && js[y] != ',' && js[y] != ']' && js[y] != '}'
    ensures var read := x == len || js[x] == '\0' || js[x] == ':' || js[x] == ',' || js[x] == ']' || js[x] == '}'
              || js[x] == ' ' || js[x] == '\t' || js[x] == '\r' || js[x] == '\n';
            && PrimitiveEnd(js, len, pos) == (if read then x else -2)
            && (read || js[x] as int < 32 || 127 <= js[x] as int)
    decreases len - pos
  {
    x := pos;
    if !AtEnd(js, len, pos) && !Delimiter(js[pos]) && !Unprintable(js[pos]) {
      x := PrimitiveIs(js, len, pos + 1);
    }
  }

  /** So it is for the value that begins with any character that is not one of a lexeme of its own. */
  lemma PrimitiveLexeme(js: string, len: nat, pos: nat) returns (x: nat)
    requires pos < len <= |js| && js[pos] !in "{[}]\":, \t\r\n\0"
    ensures pos <= x <= len
    ensures forall y :: pos <= y < x ==> 32 < js[y] as int < 127 && js[y] != ':' && js[y] != ',' && js[y] != ']' && js[y] != '}'
    ensures Lex(js, len, pos) == (if x == len || js[x] in ":,]} \t\r\n\0" then Value(PRIMITIVE, pos, x, x) else Fail(-2))
    ensures x == len || js[x] in ":,]} \t\r\n\0" || js[x] as int < 32 || 127 <= js[x] as int
  {
    hide PrimitiveEnd, StringEnd;
    x := PrimitiveIs(js, len, pos);
  }

  predicate HexDigit(c: char) {
    48 <= c as int <= 57 || 65 <= c as int <= 70 || 97 <= c as int <= 102
  }

  /**
   One unit of a string, from a to b: a plain character; a backslash that ends the text; a backslash and one of eight
   characters; or a backslash, u and four hexadecimal digits, fewer only where the text ends.
  */
  ghost predicate Unit(js: string, len: nat, a: nat, b: nat)
    requires len <= |js|
  {
    && a < len && b <= len && js[a] != '\0' && js[a] != '\"'
    && if js[a] != '\\' || a + 1 == len then b == a + 1
       else if js[a + 1] == 'u' then
         && a + 2 <= b <= a + 6 && (forall d :: a + 2 <= d < b ==> HexDigit(js[d]))
         && (b == a + 6 || b == len || js[b] == '\0')
       else b == a + 2 && js[a + 1] in "\"\\/bfnrt"
  }

  // A backslash at a that begins no unit: another character follows, or u and something other than a digit at d.
  ghost predicate BadEscape(js: string, len: nat, a: nat, d: nat)
    requires len <= |js|
  {
    && a + 1 < len && js[a] == '\\'
    && if js[a + 1] == 'u' then a + 2 <= d < a + 6 && d < len && js[d] != '\0' && !HexDigit(js[d]) && forall y :: a + 2 <= y < d ==> HexDigit(js[y])
       else js[a + 1] !in "\"\\/bfnrt"
  }

  lemma {:induction false} HexEndIs(js: string, len: nat, pos: nat, n: nat) returns (d: nat)
    requires pos <= len <= |js|
    ensures pos <= d <= len && d <= pos + n && forall y :: pos <= y < d ==> HexDigit(js[y])
    ensures HexEnd(js, len, pos, n) == (if d == pos + n || d == len || js[d] == '\0' then d else -2)
    ensures d == pos + n || d == len || js[d] == '\0' || !HexDigit(js[d])
    decreases n
  {
    d := pos;
    if n > 0 && !AtEnd(js, len, pos) && Hex(js[pos]) {
      d := HexEndIs(js, len, pos + 1, n - 1);
    }
  }

  // The unit at pos, if one begins there.
  lemma UnitIs(js: string, len: nat, pos: nat) returns (next: nat, d: nat)
    requires pos < len <= |js| && js[pos] != '\0' && js[pos] != '\"'
    ensures if Unit(js, len, pos, next) then pos < next <= len && StringEnd(js, len, pos) == StringEnd(js, len, next)
            else StringEnd(js, len, pos) == -2 && BadEscape(js, len, pos, d)
  {
    next, d := pos + 1, 0;
    if js[pos] == '\\' && pos + 1 < len {
      next := pos + 2;
      if js[pos + 1] == 'u' {
        next := HexEndIs(js, len, pos + 2, 4);
        d := next;
      }
    }
    hide HexEnd;
  }

  // The boundaries of the units from pos on.
  ghost predicate Units(js: string, len: nat, pos: nat, cuts: seq<nat>)
    requires len <= |js|
  {
    cuts != [] && cuts[0] == pos && forall i {:trigger cuts[i]} :: 0 < i < |cuts| ==> Unit(js, len, cuts[i - 1], cuts[i])
  }

  /**
   A string goes on unit by unit. It ends at the first quote that is not part of a unit; the error is -3 if
   the text ends first, and -2 only for a backslash that begins no unit.
  */
  lemma {:induction false} StringIs(js: string, len: nat, pos: nat) returns (cuts: seq<nat>, d: nat)
    requires pos <= len <= |js|
    ensures Units(js, len, pos, cuts) && cuts[|cuts| - 1] <= len
    ensures var x := cuts[|cuts| - 1];
            if x == len || js[x] == '\0' then StringEnd(js, len, pos) == -3
            else if js[x] == '\"' then StringEnd(js, len, pos) == x
            else StringEnd(js, len, pos) == -2 && BadEscape(js, len, x, d)
    decreases len - pos
  {
    hide Unit, BadEscape;
    cuts, d := [pos], 0;
    if !AtEnd(js, len, pos) && js[pos] != '\"' {
      var next;
      next, d := UnitIs(js, len, pos);
      hide StringEnd;
      if Unit(js, len, pos, next) {
        var more;
        more, d := StringIs(js, len, next);
        cuts := [pos] + more;
      }
    }
  }

  /** So it is for the value that begins with a quote. */
  lemma StringLexeme(js: string, len: nat, pos: nat) returns (cuts: seq<nat>, d: nat)
    requires pos < len <= |js| && js[pos] == '\"'
    ensures Units(js, len, pos + 1, cuts) && cuts[|cuts| - 1] <= len
    ensures var x := cuts[|cuts| - 1];
            if x == len || js[x] == '\0' then Lex(js, len, pos) == Fail(-3)
            else if js[x] == '\"' then Lex(js, len, pos) == Value(STRING, pos + 1, x, x + 1)
            else Lex(js, len, pos) == Fail(-2) && BadEscape(js, len, x, d)
  {
    hide StringEnd, Unit, BadEscape;
    cuts, d := StringIs(js, len, pos + 1);
  }

  // ------------------------------------------------------------ reference results

  // The number of tokens from a position on, added to count, whatever the brackets do.
  function CountFrom(js: string, len: nat, pos: nat, count: nat): (r: int)
    requires len <= |js|
    ensures r >= 0 ==> r >= count
    decreases len - pos
  {
    match Lex(js, len, pos)
    case Stop => count
    case Fail(e) => e
    case Open(_) => CountFrom(js, len, pos + 1, count + 1)
    case Value(_, _, _, next) => CountFrom(js, len, next, count + 1)
    case _ => CountFrom(js, len, pos + 1, count)
  }

  // The tokens from a position on as they are when they are added: containers open, nothing counted.
  function TokensFrom(js: string, len: nat, pos: nat): seq<Token>
    requires len <= |js|
    decreases len - pos
  {
    match Lex(js, len, pos)
    case Stop => []
    case Fail(_) => []
    case Open(k) => [Token(k, pos, -1, 0)] + TokensFrom(js, len, pos + 1)
    case Value(k, start, end, next) => [Token(k, start, end, 0)] + TokensFrom(js, len, next)
    case _ => TokensFrom(js, len, pos + 1)
  }

  // The result of parsing with a stack of open brackets and room for num tokens.
  function Outcome(js: string, len: nat, pos: nat, stack: seq<Kind>, count: nat, num: nat): int
    requires len <= |js|
    decreases len - pos
  {
    match Lex(js, len, pos)
    case Stop => if stack == [] then count else ERROR_PART
    case Fail(e) => e
    case Open(k) => if count >= num then ERROR_NOMEM else Outcome(js, len, pos + 1, stack + [k], count + 1, num)
    case Close(k) =>
      if stack == [] || stack[|stack| - 1] != k then ERROR_INVAL
      else Outcome(js, len, pos + 1, stack[..|stack| - 1], count, num)
    case Value(_, _, _, next) => if count >= num then ERROR_NOMEM else Outcome(js, len, next, stack, count + 1, num)
    case _ => Outcome(js, len, pos + 1, stack, count, num)
  }

  // Every closing bracket closes the innermost open one of its kind, and none stays open.
  predicate Balanced(js: string, len: nat, pos: nat, stack: seq<Kind>)
    requires len <= |js|
    decreases len - pos
  {
    match Lex(js, len, pos)
    case Stop => stack == []
    case Fail(_) => false
    case Open(k) => Balanced(js, len, pos + 1, stack + [k])
    case Close(k) => stack != [] && stack[|stack| - 1] == k && Balanced(js, len, pos + 1, stack[..|stack| - 1])
    case Value(_, _, _, next) => Balanced(js, len, next, stack)
    case _ => Balanced(js, len, pos + 1, stack)
  }

  /**
   Parsing succeeds exactly on balanced texts whose tokens fit, and then returns what the
   counting mode returns on the same text.
  */
  lemma {:induction false} SucceedsIff(js: string, len: nat, pos: nat, stack: seq<Kind>, count: nat, num: nat)
    requires len <= |js|
    ensures Outcome(js, len, pos, stack, count, num) >= 0 ==> Outcome(js, len, pos, stack, count, num) == CountFrom(js, len, pos, count)
    ensures count <= num ==> (Outcome(js, len, pos, stack, count, num) >= 0 <==>
              Balanced(js, len, pos, stack) && CountFrom(js, len, pos, count) <= num)
    ensures Balanced(js, len, pos, stack) ==> CountFrom(js, len, pos, count) >= 0
    decreases len - pos
  {
    hide Lex;
    match Lex(js, len, pos)
    case Stop =>
    case Fail(_) =>
    case Open(k) => SucceedsIff(js, len, pos + 1, stack + [k], count + 1, num);
    case Close(k) =>
      if stack != [] && stack[|stack| - 1] == k {
        SucceedsIff(js, len, pos + 1, stack[..|stack| - 1], count, num);
      }
    case Value(_, _, _, next) => SucceedsIff(js, len, next, stack, count + 1, num);
    case _ => SucceedsIff(js, len, pos + 1, stack, count, num);
  }

  // ------------------------------------------------------------ why parsing stops

  // Where the parser stands: the position, the brackets open there, and the tokens so far.
  datatype Place = Place(pos: nat, open: seq<Kind>, count: nat)

  // One lexeme is read, from a to b, with room for num tokens.
  ghost predicate Reads(js: string, len: nat, num: nat, a: Place, b: Place)
    requires len <= |js|
  {
    match Lex(js, len, a.pos)
    case Open(k) => a.count < num && b == Place(a.pos + 1, a.open + [k], a.count + 1)
    case Close(k) => b.pos == a.pos + 1 && a.open == b.open + [k] && b.count == a.count
    case Value(_, _, _, next) => a.count < num && b == Place(next, a.open, a.count + 1)
    case Stop => false
    case Fail(_) => false
    case _ => b == Place(a.pos + 1, a.open, a.count)
  }

  // Why the parser stops at x with result r.
  ghost predicate StopsFor(js: string, len: nat, num: nat, x: Place, r: int)
    requires len <= |js|
  {
    match Lex(js, len, x.pos)
    case Stop => r == if x.open == [] then x.count else -3
    case Fail(e) => r == e
    case Open(_) => r == -1 && x.count >= num
    case Value(_, _, _, _) => r == -1 && x.count >= num
    case Close(k) => r == -2 && (x.open == [] || x.open[|x.open| - 1] != k)
    case _ => false
  }

  // One step of the reference parser.
  lemma OneLexeme(js: string, len: nat, num: nat, a: Place) returns (b: Place)
    requires len <= |js|
    ensures StopsFor(js, len, num, a, Outcome(js, len, a.pos, a.open, a.count, num)) ||
            (Reads(js, len, num, a, b) && Outcome(js, len, a.pos, a.open, a.count, num) == Outcome(js, len, b.pos, b.open, b.count, num)
             && a.pos < b.pos <= len)
  {
    var n := |a.open|;
    b := match Lex(js, len, a.pos)
      case Open(k) => Place(a.pos + 1, a.open + [k], a.count + 1)
      case Close(k) => Place(a.pos + 1, if n == 0 then [] else a.open[..n - 1], a.count)
      case Value(_, _, _, next) => Place(next, a.open, a.count + 1)
      case _ => Place(a.pos + 1, a.open, a.count);
    hide Lex;
    assert n > 0 ==> a.open == a.open[..n - 1] + [a.open[n - 1]];
  }

  /**
   The parser reads lexeme by lexeme, up to the end of the text, to a lexical error, to a token for which there is no
   room (-1), or to a bracket that closes another kind or nothing (-2). At the end of the text an open bracket is error -3.
  */
  lemma {:induction false} StopsAt(js: string, len: nat, num: nat, a: Place) returns (trail: seq<Place>)
    requires len <= |js|
    ensures trail != [] && trail[0] == a
    ensures forall i {:trigger trail[i]} :: 0 < i < |trail| ==> Reads(js, len, num, trail[i - 1], trail[i])
    ensures StopsFor(js, len, num, trail[|trail| - 1], Outcome(js, len, a.pos, a.open, a.count, num))
    decreases len - a.pos
  {
    hide Outcome, StopsFor, Reads;
    trail := [a];
    var b := OneLexeme(js, len, num, a);
    if !StopsFor(js, len, num, a, Outcome(js, len, a.pos, a.open, a.count, num)) {
      var more := StopsAt(js, len, num, b);
      trail := [a] + more;
    }
  }
}
