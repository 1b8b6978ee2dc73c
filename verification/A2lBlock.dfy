/** The A2L block grammar and its two builders. */
module A2lBlock {
  import opened A2lToken
  import opened Text
  import opened Wrappers

  datatype Item = Param(token: Token) | Child(block: Block)
  datatype Block = Block(keyword: string, line: nat, items: seq<Item>)

  /** The keyword and line of the `/begin` that is open. */
  datatype Open = Open(keyword: string, line: nat)

  /** The items of a block and the tokens after its end. */
  datatype Built = Built(items: seq<Item>, rest: seq<Token>)

  function Add(items: seq<Item>, r: Result<Built, ParseError>): Result<Built, ParseError> {
    match r
    case Ok(b) => Ok(Built(items + b.items, b.rest))
    case Err(e) => Err(e)
  }

  /** What the tokens up to the end of the open block denote; without an open block, all of them. */
  function Build(ts: seq<Token>, open: Option<Open>): (r: Result<Built, ParseError>)
    ensures r.Ok? ==> |r.value.rest| <= |ts|
    ensures r.Ok? && open.None? ==> r.value.rest == []
    decreases |ts|
  {
    if ts == [] then
      match open
      case None => Ok(Built([], []))
      case Some(o) => Err(ParseError(o.line, MissingEnd(o.keyword)))
    else if ts[0].IsBegin() then
      if |ts| < 2 then Err(ParseError(ts[0].line, NoKeywordAfterBegin))
      else
        var inner := Build(ts[2..], Some(Open(ts[1].text, ts[0].line)));
        if inner.Err? then Err(inner.error)
        else Add([Child(Block(ts[1].text, ts[0].line, inner.value.items))], Build(inner.value.rest, open))
    else if ts[0].IsEnd() then
      if |ts| < 2 then Err(ParseError(ts[0].line, NoKeywordAfterEnd))
      else match open
        case None => Err(ParseError(ts[0].line, UnmatchedEnd))
        case Some(o) =>
          if EqIgnoreCase(ts[1].text, o.keyword) then Ok(Built([], ts[2..]))
          else Err(ParseError(ts[0].line, WrongEnd(ts[1].text, o.keyword)))
    else Add([Param(ts[0])], Build(ts[1..], open))
  }

  /** The root block of a token list. */
  function BuildTree(ts: seq<Token>): Result<Block, ParseError> {
    match Build(ts, None)
    case Ok(b) => Ok(Block("", 0, b.items))
    case Err(e) => Err(e)
  }

  lemma AddNothing(r: Result<Built, ParseError>)
    ensures Add([], r) == r
  {
    if r.Ok? {
      assert [] + r.value.items == r.value.items;
    }
  }

  lemma AddTwice(a: seq<Item>, b: seq<Item>, r: Result<Built, ParseError>)
    ensures Add(a, Add(b, r)) == Add(a + b, r)
  {
    if r.Ok? {
      assert a + (b + r.value.items) == a + b + r.value.items;
    }
  }

  lemma AddToEnd(items: seq<Item>, rest: seq<Token>)
    ensures Add(items, Ok(Built([], rest))) == Ok(Built(items, rest))
  {
    assert items + [] == items;
  }

  // ----- The builder over a token slice -----

  method BuildInner(tokens: seq<Token>, start: nat, enclosing: Option<string>)
    returns (r: Result<Block, ParseError>, pos: nat)
    requires start <= |tokens|
    requires enclosing.Some? ==> start >= 2
    ensures var open := if enclosing.None? then None else Some(Open(enclosing.value, tokens[start - 2].line));
            match Build(tokens[start..], open)
            case Err(e) => r == Err(e)
            case Ok(b) =>
              && r == Ok(Block(enclosing.GetOr(""), if open.Some? then open.value.line else 0, b.items))
              && start <= pos <= |tokens| && b.rest == tokens[pos..]
    decreases |tokens| - start
  {
    hide Build, Add, EqIgnoreCase;
    var keyword, line := enclosing.GetOr(""), if enclosing.Some? then tokens[start - 2].line else 0;
    ghost var open := if enclosing.None? then None else Some(Open(enclosing.value, line));
    var items: seq<Item> := [];
    pos := start;
    AddNothing(Build(tokens[start..], open));
    while pos < |tokens|
      invariant start <= pos <= |tokens|
      invariant Add(items, Build(tokens[pos..], open)) == Build(tokens[start..], open)
    {
      BuildStep(tokens, pos, open, items);
      var t := tokens[pos];
      if t.IsBegin() {
        var beginLine := t.line;
        pos := pos + 1;
        if pos == |tokens| {
          return Err(ParseError(beginLine, NoKeywordAfterBegin)), pos;
        }
        var childKeyword := tokens[pos].text;
        var child: Result<Block, ParseError>;
        pos := pos + 1;
        child, pos := BuildInner(tokens, pos, Some(childKeyword));
        if child.Err? {
          return Err(child.error), pos;
        }
        items := items + [Child(child.value.(line := beginLine))];
      } else if t.IsEnd() {
        var endLine := t.line;
        pos := pos + 1;
        if pos == |tokens| {
          return Err(ParseError(endLine, NoKeywordAfterEnd)), pos;
        }
        if enclosing.None? {
          return Err(ParseError(endLine, UnmatchedEnd)), pos;
        }
        if EqIgnoreCase(tokens[pos].text, enclosing.value) {
          pos := pos + 1;
          return Ok(Block(keyword, line, items)), pos;
        }
        return Err(ParseError(endLine, WrongEnd(tokens[pos].text, enclosing.value))), pos;
      } else {
        items := items + [Param(t)];
        pos := pos + 1;
      }
    }
    BuildEnd(tokens, pos, open, items);
    match enclosing {
      case Some(k) => r := Err(ParseError(line, MissingEnd(k)));
      case None => r := Ok(Block(keyword, line, items));
    }
  }

  /** One token of the builder, seen from position `pos`. */
  lemma BuildStep(ts: seq<Token>, pos: nat, open: Option<Open>, items: seq<Item>)
    requires pos < |ts|
    ensures var t := ts[pos];
            Add(items, Build(ts[pos..], open))
            == if t.IsBegin() then
                 if pos + 1 == |ts| then Err(ParseError(t.line, NoKeywordAfterBegin))
                 else
                   var inner := Build(ts[pos + 2..], Some(Open(ts[pos + 1].text, t.line)));
                   if inner.Err? then Err(inner.error)
                   else Add(items + [Child(Block(ts[pos + 1].text, t.line, inner.value.items))],
                            Build(inner.value.rest, open))
               else if t.IsEnd() then
                 if pos + 1 == |ts| then Err(ParseError(t.line, NoKeywordAfterEnd))
                 else match open
                   case None => Err(ParseError(t.line, UnmatchedEnd))
                   case Some(o) =>
                     if EqIgnoreCase(ts[pos + 1].text, o.keyword) then Ok(Built(items, ts[pos + 2..]))
                     else Err(ParseError(t.line, WrongEnd(ts[pos + 1].text, o.keyword)))
               else Add(items + [Param(t)], Build(ts[pos + 1..], open))
  {
    hide EqIgnoreCase;
    var s := ts[pos..];
    assert s[1..] == ts[pos + 1..];
    if s[0].IsBegin() && |s| > 1 {
      assert s[2..] == ts[pos + 2..];
      var inner := Build(s[2..], Some(Open(s[1].text, s[0].line)));
      if inner.Ok? {
        AddTwice(items, [Child(Block(s[1].text, s[0].line, inner.value.items))], Build(inner.value.rest, open));
      }
    } else if s[0].IsEnd() && |s| > 1 {
      assert s[2..] == ts[pos + 2..];
      AddToEnd(items, s[2..]);
    } else if !s[0].IsBegin() && !s[0].IsEnd() {
      AddTwice(items, [Param(s[0])], Build(s[1..], open));
    }
  }

  lemma BuildEnd(ts: seq<Token>, pos: nat, open: Option<Open>, items: seq<Item>)
    requires pos == |ts|
    ensures Add(items, Build(ts[pos..], open))
         == match open
            case None => Ok(Built(items, []))
            case Some(o) => Err(ParseError(o.line, MissingEnd(o.keyword)))
  {
    AddToEnd(items, []);
  }

  /** The check for tokens left after the root can never fire. */
  method BuildBlockTree(tokens: seq<Token>) returns (r: Result<Block, ParseError>)
    ensures r == BuildTree(tokens)
  {
    var pos: nat;
    assert tokens[0..] == tokens;
    r, pos := BuildInner(tokens, 0, None);
    if r.Ok? && pos != |tokens| {
      assert false;
    }
  }

  // ----- The builder that consumes its tokens -----

  class TokenIter {
    var rest: seq<Token>

    constructor (tokens: seq<Token>)
      ensures rest == tokens
    {
      rest := tokens;
    }

    method Next() returns (t: Option<Token>)
      modifies this
      ensures old(rest) == [] ==> t == None && rest == []
      ensures old(rest) != [] ==> t == Some(old(rest)[0]) && rest == old(rest)[1..]
    {
      if rest == [] {
        return None;
      }
      t := Some(rest[0]);
      rest := rest[1..];
    }
  }

  method BuildInnerOwned(tokens: TokenIter, enclosing: Option<Open>) returns (r: Result<Block, ParseError>)
    modifies tokens
    ensures match Build(old(tokens.rest), enclosing)
            case Err(e) => r == Err(e)
            case Ok(b) =>
              && r == Ok(Block(if enclosing.Some? then enclosing.value.keyword else "",
                               if enclosing.Some? then enclosing.value.line else 0, b.items))
              && tokens.rest == b.rest
    decreases |tokens.rest|
  {
    hide Build, Add, EqIgnoreCase;
    var isRoot := enclosing.None?;
    var keyword, line := if isRoot then "" else enclosing.value.keyword, if isRoot then 0 else enclosing.value.line;
    var items: seq<Item> := [];
    ghost var all := tokens.rest;
    AddNothing(Build(all, enclosing));
    while true
      invariant Add(items, Build(tokens.rest, enclosing)) == Build(all, enclosing)
      invariant |tokens.rest| <= |all|
      decreases |tokens.rest|
    {
      ghost var now := tokens.rest;
      assert now[0..] == now;
      var token := tokens.Next();
      if token.None? {
        BuildEnd(now, 0, enclosing, items);
        if isRoot {
          return Ok(Block(keyword, line, items));
        }
        return Err(ParseError(line, MissingEnd(keyword)));
      }
      BuildStep(now, 0, enclosing, items);
      var t := token.value;
      if t.IsBegin() {
        var keywordToken := tokens.Next();
        if keywordToken.None? {
          return Err(ParseError(t.line, NoKeywordAfterBegin));
        }
        assert now[1..][1..] == now[2..];
        var child := BuildInnerOwned(tokens, Some(Open(keywordToken.value.text, t.line)));
        if child.Err? {
          return Err(child.error);
        }
        items := items + [Child(child.value)];
      } else if t.IsEnd() {
        var keywordToken := tokens.Next();
        if keywordToken.None? {
          return Err(ParseError(t.line, NoKeywordAfterEnd));
        }
        if isRoot {
          return Err(ParseError(t.line, UnmatchedEnd));
        }
        if !EqIgnoreCase(keywordToken.value.text, keyword) {
          return Err(ParseError(t.line, WrongEnd(keywordToken.value.text, keyword)));
        }
        assert now[1..][1..] == now[2..];
        return Ok(Block(keyword, line, items));
      } else {
        items := items + [Param(t)];
      }
    }
  }

  method BuildBlockTreeOwned(tokens: seq<Token>) returns (r: Result<Block, ParseError>)
    ensures r == BuildTree(tokens)
  {
    var iter := new TokenIter(tokens);
    r := BuildInnerOwned(iter, None);
  }

  // ----- The grammar -----

  /** A derivation: a parameter, or a block with its two delimiters and their keywords. */
  datatype Tree =
    | Leaf(token: Token)
    | Node(begin: Token, keyword: Token, body: seq<Tree>, end: Token, endKeyword: Token)

  ghost predicate Derives(trees: seq<Tree>) {
    forall i :: 0 <= i < |trees| ==> DerivesOne(trees[i])
  }

  ghost predicate DerivesOne(tree: Tree) {
    match tree
    case Leaf(t) => !t.IsBegin() && !t.IsEnd()
    case Node(b, k, body, e, ek) =>
      b.IsBegin() && e.IsEnd() && EqIgnoreCase(ek.text, k.text)
      && forall i :: 0 <= i < |body| ==> DerivesOne(body[i])
  }

  /** The tokens of a derivation. */
  function Yield(trees: seq<Tree>): seq<Token> {
    if trees == [] then [] else YieldOne(trees[0]) + Yield(trees[1..])
  }

  function YieldOne(tree: Tree): (ts: seq<Token>)
    ensures ts != []
  {
    match tree
    case Leaf(t) => [t]
    case Node(b, k, body, e, ek) => [b, k] + Yield(body) + [e, ek]
  }

  /** The items a derivation denotes. */
  function Items(trees: seq<Tree>): seq<Item> {
    if trees == [] then [] else [ItemOf(trees[0])] + Items(trees[1..])
  }

  function ItemOf(tree: Tree): Item {
    match tree
    case Leaf(t) => Param(t)
    case Node(b, k, body, _, _) => Child(Block(k.text, b.line, Items(body)))
  }

  // ----- Sequence facts -----

  lemma LeafTokens(t: Token, others: seq<Tree>, tail: seq<Token>)
    ensures Yield([Leaf(t)] + others) + tail == [t] + (Yield(others) + tail)
    ensures Items([Leaf(t)] + others) == [Param(t)] + Items(others)
  {
    assert ([Leaf(t)] + others)[1..] == others;
  }

  lemma NodeTokens(b: Token, k: Token, body: seq<Tree>, e: Token, ek: Token, others: seq<Tree>, tail: seq<Token>)
    ensures Yield([Node(b, k, body, e, ek)] + others) + tail
         == [b, k] + (Yield(body) + ([e, ek] + (Yield(others) + tail)))
    ensures Items([Node(b, k, body, e, ek)] + others) == [Child(Block(k.text, b.line, Items(body)))] + Items(others)
  {
    assert ([Node(b, k, body, e, ek)] + others)[1..] == others;
  }

  lemma OneCons<T>(x: T, p: seq<T>, y: T, q: seq<T>)
    requires [x] + p == [y] + q
    ensures x == y && p == q
  {
    assert ([x] + p)[0] == ([y] + q)[0];
    assert ([x] + p)[1..] == p && ([y] + q)[1..] == q;
  }

  lemma TwoCons<T>(x: T, x': T, p: seq<T>, y: T, y': T, q: seq<T>)
    requires [x, x'] + p == [y, y'] + q
    ensures x == y && x' == y' && p == q
  {
    assert ([x, x'] + p)[0] == ([y, y'] + q)[0] && ([x, x'] + p)[1] == ([y, y'] + q)[1];
    assert ([x, x'] + p)[2..] == p && ([y, y'] + q)[2..] == q;
  }

  // ----- The builder on the parts of a derivation -----

  lemma BuildLeaf(t: Token, ts: seq<Token>, open: Option<Open>)
    requires !t.IsBegin() && !t.IsEnd()
    ensures Build([t] + ts, open) == Add([Param(t)], Build(ts, open))
  {
    assert ([t] + ts)[1..] == ts;
  }

  lemma BuildBegin(b: Token, k: Token, ts: seq<Token>, open: Option<Open>)
    requires b.IsBegin()
    ensures var inner := Build(ts, Some(Open(k.text, b.line)));
            Build([b, k] + ts, open)
            == if inner.Err? then Err(inner.error)
               else Add([Child(Block(k.text, b.line, inner.value.items))], Build(inner.value.rest, open))
  {
    assert ([b, k] + ts)[2..] == ts;
  }

  lemma BuildClose(e: Token, k: Token, ts: seq<Token>, o: Open)
    requires e.IsEnd() && EqIgnoreCase(k.text, o.keyword)
    ensures Build([e, k] + ts, Some(o)) == Ok(Built([], ts))
  {
    BeginIsNotEnd();
    assert ([e, k] + ts)[2..] == ts;
  }

  /** Tokens that start with a derivation are built as its items and then the rest. */
  lemma {:induction false} BuildDerived(trees: seq<Tree>, tail: seq<Token>, open: Option<Open>)
    requires Derives(trees)
    ensures Build(Yield(trees) + tail, open) == Add(Items(trees), Build(tail, open))
    decreases trees
  {
    if trees == [] {
      assert Yield(trees) + tail == tail;
      AddNothing(Build(tail, open));
    } else {
      hide EqIgnoreCase, Build, Yield, Items, Add;
      var others := trees[1..];
      assert trees == [trees[0]] + others && DerivesOne(trees[0]);
      BuildDerived(others, tail, open);
      match trees[0] {
        case Leaf(t) =>
          LeafTokens(t, others, tail);
          BuildLeaf(t, Yield(others) + tail, open);
          AddTwice([Param(t)], Items(others), Build(tail, open));
        case Node(b, k, body, e, ek) =>
          var more := Yield(others) + tail;
          var inside := Some(Open(k.text, b.line));
          NodeTokens(b, k, body, e, ek, others, tail);
          BuildBegin(b, k, Yield(body) + ([e, ek] + more), open);
          BuildDerived(body, [e, ek] + more, inside);
          BuildClose(e, ek, more, inside.value);
          AddToEnd(Items(body), more);
          AddTwice([Child(Block(k.text, b.line, Items(body)))], Items(others), Build(tail, open));
      }
    }
  }

  /** The tokens that close an open block. */
  ghost predicate Closes(closing: seq<Token>, open: Option<Open>) {
    match open
    case None => closing == []
    case Some(o) => |closing| == 2 && closing[0].IsEnd() && EqIgnoreCase(closing[1].text, o.keyword)
  }

  /** A derivation of what was built from the tokens, and the tokens that close it. */
  ghost predicate Derivation(trees: seq<Tree>, closing: seq<Token>, ts: seq<Token>, open: Option<Open>, b: Built) {
    Derives(trees) && Items(trees) == b.items && Closes(closing, open) && ts == Yield(trees) + (closing + b.rest)
  }

  /** Whatever is built has a derivation. */
  lemma {:induction false} DerivationOf(ts: seq<Token>, open: Option<Open>)
    returns (trees: seq<Tree>, closing: seq<Token>)
    requires Build(ts, open).Ok?
    ensures Derivation(trees, closing, ts, open, Build(ts, open).value)
    decreases |ts|
  {
    hide EqIgnoreCase;
    if ts == [] {
      trees, closing := [], [];
    } else if ts[0].IsBegin() {
      hide Yield, Items;
      var inside := Some(Open(ts[1].text, ts[0].line));
      var inner := Build(ts[2..], inside).value;
      var body, innerClosing := DerivationOf(ts[2..], inside);
      var more;
      more, closing := DerivationOf(inner.rest, open);
      trees := [Node(ts[0], ts[1], body, innerClosing[0], innerClosing[1])] + more;
      assert ts == [ts[0], ts[1]] + ts[2..];
      JoinNode(ts[0], ts[1], ts[2..], body, innerClosing, inner, more, closing, open, Build(inner.rest, open).value);
    } else if ts[0].IsEnd() {
      trees, closing := [], ts[..2];
    } else {
      hide Yield, Items;
      var more;
      more, closing := DerivationOf(ts[1..], open);
      trees := [Leaf(ts[0])] + more;
      assert ts == [ts[0]] + ts[1..];
      JoinLeaf(ts[0], ts[1..], more, closing, open, Build(ts[1..], open).value);
    }
  }

  lemma JoinLeaf(t: Token, ts: seq<Token>, more: seq<Tree>, closing: seq<Token>, open: Option<Open>, last: Built)
    requires !t.IsBegin() && !t.IsEnd()
    requires Derivation(more, closing, ts, open, last)
    ensures Derivation([Leaf(t)] + more, closing, [t] + ts, open, Built([Param(t)] + last.items, last.rest))
  {
    hide EqIgnoreCase, Yield, Items;
    LeafTokens(t, more, closing + last.rest);
    var all := [Leaf(t)] + more;
    assert DerivesOne(all[0]);
    assert all[1..] == more;
  }

  lemma JoinNode(b: Token, k: Token, ts: seq<Token>, body: seq<Tree>, bodyClosing: seq<Token>, inner: Built,
                 more: seq<Tree>, closing: seq<Token>, open: Option<Open>, last: Built)
    requires b.IsBegin()
    requires Derivation(body, bodyClosing, ts, Some(Open(k.text, b.line)), inner)
    requires Derivation(more, closing, inner.rest, open, last)
    ensures Derivation([Node(b, k, body, bodyClosing[0], bodyClosing[1])] + more, closing, [b, k] + ts, open,
                       Built([Child(Block(k.text, b.line, inner.items))] + last.items, last.rest))
  {
    hide EqIgnoreCase, Yield, Items;
    var e, ek := bodyClosing[0], bodyClosing[1];
    assert bodyClosing == [e, ek];
    NodeTokens(b, k, body, e, ek, more, closing + last.rest);
    var all := [Node(b, k, body, e, ek)] + more;
    assert DerivesOne(all[0]);
    assert all[1..] == more;
  }

  /** The builder accepts a token list exactly when it has a derivation, and returns what that denotes. */
  lemma BuilderIsGrammar(ts: seq<Token>, root: Block)
    ensures BuildTree(ts) == Ok(root)
       <==> exists trees :: Derives(trees) && Yield(trees) == ts && root == Block("", 0, Items(trees))
  {
    if BuildTree(ts) == Ok(root) {
      var trees, closing := DerivationOf(ts, None);
      assert Yield(trees) + ([] + []) == Yield(trees);
    }
    if trees :| Derives(trees) && Yield(trees) == ts && root == Block("", 0, Items(trees)) {
      BuildDerived(trees, [], None);
      assert Yield(trees) + [] == ts && Items(trees) + [] == Items(trees);
    }
  }

  /** A token list has at most one derivation, so the tree is determined down to its delimiters. */
  lemma DerivationIsUnique(a: seq<Tree>, b: seq<Tree>)
    requires Derives(a) && Derives(b) && Yield(a) == Yield(b)
    ensures a == b
  {
    SameSplit(a, b, [], []);
  }

  lemma {:induction false} SameSplit(a: seq<Tree>, b: seq<Tree>, r: seq<Token>, s: seq<Token>)
    requires Derives(a) && Derives(b) && Yield(a) + r == Yield(b) + s
    requires (r == [] || r[0].IsEnd()) && (s == [] || s[0].IsEnd())
    ensures a == b && r == s
    decreases |Yield(a)|
  {
    hide EqIgnoreCase;
    FirstToken(a, r);
    FirstToken(b, s);
    if a == [] || b == [] {
      assert a == [] && b == [];
      assert [] + r == r && [] + s == s;
    } else {
      hide Yield, Items;
      var a', b' := a[1..], b[1..];
      assert a == [a[0]] + a' && b == [b[0]] + b';
      assert DerivesOne(a[0]) && DerivesOne(b[0]);
      YieldCons(a);
      match a[0] {
        case Leaf(t) =>
          LeafTokens(t, a', r);
          LeafTokens(b[0].token, b', s);
          OneCons(t, Yield(a') + r, b[0].token, Yield(b') + s);
        case Node(x, k, body, e, ek) =>
          var o := b[0];
          var more, more' := Yield(a') + r, Yield(b') + s;
          NodeTokens(x, k, body, e, ek, a', r);
          NodeTokens(o.begin, o.keyword, o.body, o.end, o.endKeyword, b', s);
          TwoCons(x, k, Yield(body) + ([e, ek] + more), o.begin, o.keyword,
                  Yield(o.body) + ([o.end, o.endKeyword] + more'));
          YieldNode(a[0]);
          SameSplit(body, o.body, [e, ek] + more, [o.end, o.endKeyword] + more');
          TwoCons(e, ek, more, o.end, o.endKeyword, more');
      }
      SameSplit(a', b', r, s);
    }
  }

  lemma YieldCons(trees: seq<Tree>)
    requires trees != []
    ensures |Yield(trees)| == |YieldOne(trees[0])| + |Yield(trees[1..])| && |Yield(trees[1..])| < |Yield(trees)|
  {
  }

  lemma YieldNode(tree: Tree)
    requires tree.Node?
    ensures |YieldOne(tree)| == |Yield(tree.body)| + 4
  {
  }

  /** The first token tells whether a derivation has begun, ended or not started. */
  lemma FirstToken(a: seq<Tree>, r: seq<Token>)
    requires Derives(a) && (r == [] || r[0].IsEnd())
    ensures a == [] ==> Yield(a) + r == [] || (Yield(a) + r)[0].IsEnd()
    ensures a != [] ==> Yield(a) + r != [] && !(Yield(a) + r)[0].IsEnd()
                        && (a[0].Node? <==> (Yield(a) + r)[0].IsBegin())
  {
    BeginIsNotEnd();
    if a != [] {
      assert DerivesOne(a[0]);
    }
  }

  lemma BeginIsNotEnd()
    ensures forall t: Token :: !(t.IsBegin() && t.IsEnd())
  {
    assert |"/begin"| != |"/end"|;
  }

  // ----- From the tree back to its tokens -----

  /** The tokens a block stands for, its delimiters on the line where it begins. */
  function Flatten(items: seq<Item>): seq<Token> {
    if items == [] then [] else FlattenOne(items[0]) + Flatten(items[1..])
  }

  function FlattenOne(item: Item): seq<Token> {
    match item
    case Param(t) => [t]
    case Child(Block(keyword, line, items)) =>
      [Token("/begin", line, false), Token(keyword, line, false)] + Flatten(items)
      + [Token("/end", line, false), Token(keyword, line, false)]
  }

  /** No parameter is a delimiter. */
  ghost predicate Regular(items: seq<Item>) {
    forall i :: 0 <= i < |items| ==> RegularOne(items[i])
  }

  ghost predicate RegularOne(item: Item) {
    match item
    case Param(t) => !t.IsBegin() && !t.IsEnd()
    case Child(block) => forall i :: 0 <= i < |block.items| ==> RegularOne(block.items[i])
  }

  /** The derivation of the flattened items. */
  function TreesOf(items: seq<Item>): seq<Tree> {
    if items == [] then [] else [TreeOf(items[0])] + TreesOf(items[1..])
  }

  function TreeOf(item: Item): Tree {
    match item
    case Param(t) => Leaf(t)
    case Child(Block(keyword, line, items)) =>
      Node(Token("/begin", line, false), Token(keyword, line, false), TreesOf(items),
           Token("/end", line, false), Token(keyword, line, false))
  }

  lemma DelimiterTokens(keyword: string, line: nat)
    ensures Token("/begin", line, false).IsBegin() && Token("/end", line, false).IsEnd()
            && EqIgnoreCase(keyword, keyword)
  {
  }

  lemma {:induction false} TreesOfItems(items: seq<Item>)
    requires Regular(items)
    ensures Derives(TreesOf(items)) && Yield(TreesOf(items)) == Flatten(items) && Items(TreesOf(items)) == items
    decreases items
  {
    hide EqIgnoreCase;
    if items != [] {
      assert RegularOne(items[0]);
      TreesOfItems(items[1..]);
      TreeOfItem(items[0]);
      assert TreesOf(items)[1..] == TreesOf(items[1..]);
    }
  }

  lemma {:induction false} TreeOfItem(item: Item)
    requires RegularOne(item)
    ensures DerivesOne(TreeOf(item)) && YieldOne(TreeOf(item)) == FlattenOne(item) && ItemOf(TreeOf(item)) == item
    decreases item
  {
    hide EqIgnoreCase;
    if item.Child? {
      assert Regular(item.block.items);
      DelimiterTokens(item.block.keyword, item.block.line);
      TreesOfItems(item.block.items);
    }
  }

  /** The token is a delimiter or the keyword after one. */
  predicate Delimits(ts: seq<Token>, i: nat)
    requires i < |ts|
  {
    ts[i].IsBegin() || ts[i].IsEnd() || (i > 0 && (ts[i - 1].IsBegin() || ts[i - 1].IsEnd()))
  }

  /** The same tokens, but for the lines, the quotes and the case of the delimiters and their keywords. */
  ghost predicate Alike(a: seq<Token>, b: seq<Token>) {
    && |a| == |b|
    && forall i :: 0 <= i < |a| ==> (a[i] == b[i] || Delimits(a, i)) && EqIgnoreCase(a[i].text, b[i].text)
  }

  lemma AlikeJoin(a: seq<Token>, b: seq<Token>, c: seq<Token>, d: seq<Token>)
    requires Alike(a, b) && Alike(c, d)
    ensures Alike(a + c, b + d)
  {
    hide EqIgnoreCase;
    var s, t := a + c, b + d;
    forall i | 0 <= i < |s| ensures (s[i] == t[i] || Delimits(s, i)) && EqIgnoreCase(s[i].text, t[i].text) {
      if i >= |a| {
        assert s[i] == c[i - |a|] && t[i] == d[i - |a|];
        assert i > |a| ==> s[i - 1] == c[i - |a| - 1];
      }
    }
  }

  lemma AlikeDelimiters(a: Token, k: Token, b: Token, l: Token)
    requires (a.IsBegin() && b.IsBegin()) || (a.IsEnd() && b.IsEnd())
    requires EqIgnoreCase(k.text, l.text)
    ensures Alike([a, k], [b, l])
  {
  }

  lemma {:induction false} YieldAlike(trees: seq<Tree>)
    requires Derives(trees)
    ensures Regular(Items(trees)) && Alike(Yield(trees), Flatten(Items(trees)))
    decreases trees
  {
    hide EqIgnoreCase;
    if trees != [] {
      hide Alike;
      assert DerivesOne(trees[0]);
      YieldOneAlike(trees[0]);
      YieldAlike(trees[1..]);
      var items := Items(trees);
      assert items[1..] == Items(trees[1..]);
      AlikeJoin(YieldOne(trees[0]), FlattenOne(items[0]), Yield(trees[1..]), Flatten(items[1..]));
    }
  }

  lemma {:induction false} YieldOneAlike(tree: Tree)
    requires DerivesOne(tree)
    ensures RegularOne(ItemOf(tree)) && Alike(YieldOne(tree), FlattenOne(ItemOf(tree)))
    decreases tree
  {
    match tree {
      case Leaf(t) =>
      case Node(b, k, body, e, ek) =>
        hide EqIgnoreCase, Alike;
        assert Derives(body);
        YieldAlike(body);
        DelimiterTokens(k.text, b.line);
        var begin, end, keyword :=
          Token("/begin", b.line, false), Token("/end", b.line, false), Token(k.text, b.line, false);
        AlikeDelimiters(b, k, begin, keyword);
        AlikeDelimiters(e, ek, end, keyword);
        AlikeJoin([b, k], [begin, keyword], Yield(body), Flatten(Items(body)));
        AlikeJoin([b, k] + Yield(body), [begin, keyword] + Flatten(Items(body)), [e, ek], [end, keyword]);
    }
  }

  /**
   The tree keeps the tokens it was built from: flattened, it gives them back but for the lines, the quotes and the
   case of the delimiters and their keywords, and building the flattened tokens gives the same tree.
   */
  lemma TreeKeepsTokens(ts: seq<Token>, root: Block)
    requires BuildTree(ts) == Ok(root)
    ensures Alike(ts, Flatten(root.items)) && BuildTree(Flatten(root.items)) == Ok(root)
  {
    hide Build, Derives, Alike, Items;
    BuilderIsGrammar(ts, root);
    var trees :| Derives(trees) && Yield(trees) == ts && root == Block("", 0, Items(trees));
    YieldAlike(trees);
    TreesOfItems(root.items);
    BuilderIsGrammar(Flatten(root.items), root);
  }
}
