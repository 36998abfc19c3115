/** The statements that a text for sresar/toml.c shows: which tokens stand for which keys, values, headers.

    The grammar says nothing of tables.  It follows the statements, not the text: each predicate takes a piece of
    syntax apart and asks for its tokens one by one. */
module CTomlGrammar {
  import opened Wrappers
  import opened CTomlScan
  import opened CTomlTree
  import opened CTomlParser

  datatype Val = Plain(raw: string) | List(elems: seq<Val>) | Inline(pairs: seq<Pair>)

  /** A key of one or more parts, and its value. */
  datatype Pair = Pair(keys: seq<string>, val: Val)

  datatype Stmt = Item(pair: Pair) | Head(keys: seq<string>, double: bool)

  /** The next token, if there is one. */
  function Then(text: CString, tok: Token, dot: bool): (r: Option<Token>)
    requires Inside(text, tok)
    ensures r.Some? ==> Inside(text, r.value) && tok.End() <= r.value.ptr
  {
    match Next(text, tok, dot)
    case Ok(t) => Some(t)
    case Err(_) => None
  }

  /** The token behind one of this kind. */
  function Behind(text: CString, tok: Token, kind: Kind, dot: bool): (r: Option<Token>)
    requires Inside(text, tok)
    ensures r.Some? ==> Inside(text, r.value) && tok.End() <= r.value.ptr && tok.kind == kind
  {
    if tok.kind == kind then Then(text, tok, dot) else None
  }

  predicate KeyIs(text: CString, tok: Token, key: string)
    requires Inside(text, tok)
  {
    tok.kind == Str && NormalizeKey(text, tok) == Ok(key)
  }

  /** The first token from `tok` on that is not a line end, as in an array. */
  function PastLines(text: CString, tok: Token): (r: Option<Token>)
    requires Inside(text, tok)
    ensures r.Some? ==> Inside(text, r.value) && tok.ptr <= r.value.ptr
  {
    match SkipNewlines(text, tok, false)
    case Ok(t) => Some(t)
    case Err(_) => None
  }

  /** The token behind the value that starts at `tok`; a plain value says how the next token is read. */
  function ValEnd(text: CString, tok: Token, v: Val, dot: bool): (r: Option<Token>)
    requires Inside(text, tok)
    ensures r.Some? ==> Inside(text, r.value) && tok.ptr <= r.value.ptr
    decreases v, 0, 0
  {
    match v
    case Plain(raw) =>
      if tok.kind == Str && text[tok.ptr..tok.End()] == raw then Then(text, tok, dot) else None
    case List(elems) =>
      (match Behind(text, tok, LBracket, false)
       case None => None
       case Some(t) => ElemsEnd(text, t, elems))
    case Inline(pairs) =>
      match Behind(text, tok, LBrace, true)
      case None => None
      case Some(t) => PairsEnd(text, t, pairs)
  }

  /** The token behind the bracket that ends these elements; a comma may stand behind the last one. */
  function ElemsEnd(text: CString, tok: Token, elems: seq<Val>): (r: Option<Token>)
    requires Inside(text, tok)
    ensures r.Some? ==> Inside(text, r.value) && tok.ptr <= r.value.ptr
    decreases elems, 0, 0
  {
    match PastLines(text, tok)
    case None => None
    case Some(t) =>
      if elems == [] then Behind(text, t, RBracket, true)
      else if t.kind == RBracket then None
      else
        match ValEnd(text, t, elems[0], false)
        case None => None
        case Some(t1) =>
          match PastLines(text, t1)
          case None => None
          case Some(t2) =>
            if t2.kind == Comma then
              match Then(text, t2, false)
              case None => None
              case Some(t3) => ElemsEnd(text, t3, elems[1..])
            else if |elems| == 1 then Behind(text, t2, RBracket, true) else None
  }

  /** The token behind the brace that ends these pairs; a comma may stand behind the last one. */
  function PairsEnd(text: CString, tok: Token, pairs: seq<Pair>): (r: Option<Token>)
    requires Inside(text, tok)
    ensures r.Some? ==> Inside(text, r.value) && tok.ptr <= r.value.ptr
    decreases pairs, 0, 0
  {
    if pairs == [] then Behind(text, tok, RBrace, true)
    else
      match PairEnd(text, tok, pairs[0].keys, pairs[0].val)
      case None => None
      case Some(t) =>
        if t.kind == Comma then
          match Then(text, t, true)
          case None => None
          case Some(t1) => PairsEnd(text, t1, pairs[1..])
        else if |pairs| == 1 then Behind(text, t, RBrace, true) else None
  }

  /** The token behind the key and value that start at `tok`. */
  function PairEnd(text: CString, tok: Token, keys: seq<string>, val: Val): (r: Option<Token>)
    requires Inside(text, tok)
    ensures r.Some? ==> Inside(text, r.value) && tok.ptr < r.value.ptr
    decreases val, 1, |keys|
  {
    if keys == [] || !KeyIs(text, tok, keys[0]) then None
    else
      match Then(text, tok, true)
      case None => None
      case Some(t1) =>
        if |keys| == 1 then
          match Behind(text, t1, Equal, false)
          case None => None
          case Some(t2) => ValEnd(text, t2, val, true)
        else
          match Behind(text, t1, Dot, true)
          case None => None
          case Some(t2) => PairEnd(text, t2, keys[1..], val)
  }

  /** The bracket behind the keys of a header. */
  function KeysEnd(text: CString, tok: Token, keys: seq<string>): (r: Option<Token>)
    requires Inside(text, tok)
    ensures r.Some? ==> Inside(text, r.value) && tok.ptr <= r.value.ptr && r.value.kind == RBracket
    decreases |keys|
  {
    if keys == [] || !KeyIs(text, tok, keys[0]) then None
    else
      match Then(text, tok, true)
      case None => None
      case Some(t) =>
        if |keys| == 1 then if t.kind == RBracket then Some(t) else None
        else
          match Behind(text, t, Dot, true)
          case None => None
          case Some(t1) => KeysEnd(text, t1, keys[1..])
  }

  predicate CharBehind(text: CString, tok: Token, c: char) {
    tok.ptr + 1 < |text| && text[tok.ptr + 1] == c
  }

  /** The line end behind a header: both brackets of a double header stand side by side, and ten keys are the most. */
  function HeadEnd(text: CString, tok: Token, keys: seq<string>, double: bool): (r: Option<Token>)
    requires Inside(text, tok)
    ensures r.Some? ==> Inside(text, r.value) && tok.ptr < r.value.ptr
  {
    if |keys| > 10 || double != CharBehind(text, tok, '[') then None
    else
      match Brackets(text, tok, LBracket, double)
      case None => None
      case Some(t) =>
        match KeysEnd(text, t, keys)
        case None => None
        case Some(t1) =>
          if double && !CharBehind(text, t1, ']') then None
          else
            match Brackets(text, t1, RBracket, double)
            case None => None
            case Some(t2) => if t2.kind == Newline then Some(t2) else None
  }

  /** The token behind one bracket or two. */
  function Brackets(text: CString, tok: Token, kind: Kind, double: bool): (r: Option<Token>)
    requires Inside(text, tok)
    ensures r.Some? ==> Inside(text, r.value) && tok.ptr <= r.value.ptr
  {
    match Behind(text, tok, kind, true)
    case None => None
    case Some(t) => if double then Behind(text, t, kind, true) else Some(t)
  }

  /** From `tok` on the text is these statements, with line ends between them. */
  predicate Shows(text: CString, tok: Token, stmts: seq<Stmt>)
    requires Inside(text, tok)
    decreases |text| - tok.ptr, if tok.kind == Newline && tok.len == 0 then 1 else 0, |stmts|
  {
    if tok.eof then stmts == []
    else if tok.kind == Newline then
      match Then(text, tok, true)
      case None => false
      case Some(t) => if t.eof then stmts == [] else Shows(text, t, stmts)
    else if stmts == [] then false
    else
      match stmts[0]
      case Item(pair) =>
        (match PairEnd(text, tok, pair.keys, pair.val)
         case None => false
         case Some(t) =>
           match Behind(text, t, Newline, true)
           case None => false
           case Some(t1) => Shows(text, t1, stmts[1..]))
      case Head(keys, double) =>
        match HeadEnd(text, tok, keys, double)
        case None => false
        case Some(t) => Shows(text, t, stmts[1..])
  }
}
