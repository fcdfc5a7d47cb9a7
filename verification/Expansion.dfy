/** Wildcard substitution by rewriting in place, and the recursive expansion it amounts to. */
module Expansion {
  import opened Wrappers
  import opened Wildcards

  /** The names that have a value. */
  function Defined(s: Settings): set<string> {
    s.mdict.Keys + s.env.Keys
  }

  /** The names that may still be expanded on the way down. */
  function Unused(s: Settings, seen: seq<string>): set<string> {
    set name | name in Defined(s) && name !in seen
  }

  lemma UnusedFalls(s: Settings, seen: seq<string>, name: string)
    requires name in Unused(s, seen)
    ensures |Unused(s, seen + [name])| < |Unused(s, seen)|
  {
    assert Unused(s, seen + [name]) == Unused(s, seen) - {name};
  }

  lemma {:induction false} PlainBraced(t: string)
    requires forall i :: 0 <= i < |t| ==> t[i] != '{' && t[i] != '}'
    ensures Braced(t)
  {
    if t == "" {
      NoPieces();
    } else {
      PlainBraced(t[1..]);
      PiecesFrom(t);
    }
  }

  lemma {:induction false} DecimalPlain(n: nat)
    ensures forall i :: 0 <= i < |Decimal(n)| ==> Decimal(n)[i] != '{' && Decimal(n)[i] != '}'
  {
    if n >= 10 {
      DecimalPlain(n / 10);
    }
  }

  lemma {:induction false} JoinBraced(v: Value, n: nat)
    requires v.List? && n <= |v.elements| && BracedValue(v)
    ensures Join(v, n).Some? ==> Braced(Join(v, n).value)
    decreases v, 0, n
  {
    hide Pieces;
    if n == 0 {
      PlainBraced("");
    } else {
      StringifyBraced(v.elements[n - 1]);
      if n > 1 && Join(v, n).Some? {
        JoinBraced(v, n - 1);
        PlainBraced(" ");
        PiecesAppend(Join(v, n - 1).value, " ");
        PiecesAppend(Join(v, n - 1).value + " ", Stringify(v.elements[n - 1]).value);
      }
    }
  }

  /** A properly braced value is a properly braced string. */
  lemma {:induction false} StringifyBraced(v: Value)
    requires BracedValue(v)
    ensures Stringify(v).Some? ==> Braced(Stringify(v).value)
    decreases v, 1, 0
  {
    hide Pieces;
    match v {
      case Bool(flag) => PlainBraced(if flag then "1" else "0");
      case Int(number) =>
        DecimalPlain(if number < 0 then -number else number);
        PlainBraced(Stringify(v).value);
      case List(elements) => JoinBraced(v, |elements|);
      case _ =>
    }
  }

  lemma LookupBraced(s: Settings, name: string)
    requires BracedSettings(s) && Lookup(s, name).Some?
    ensures BracedValue(Lookup(s, name).value)
  {
  }

  // ----- the recursive expansion -----

  function Then(a: Result<seq<Piece>>, b: Result<seq<Piece>>): Result<seq<Piece>> {
    if a.Err? then a else if b.Err? then b else Ok(a.value + b.value)
  }

  /** The string a name stands for, if it has a value that can be made one. */
  function BodyText(s: Settings, name: string): Option<string> {
    match Lookup(s, name)
    case None => None
    case Some(v) => Stringify(v)
  }

  /** The pieces of that string. */
  function Body(s: Settings, name: string): Option<seq<Piece>> {
    match BodyText(s, name)
    case None => None
    case Some(text) => Pieces(text)
  }

  /** Every piece is replaced by its expansion; the first error, from the left, counts. */
  function Expand(s: Settings, ps: seq<Piece>, seen: seq<string>): Result<seq<Piece>>
    decreases |Unused(s, seen)|, |ps|
  {
    if ps == [] then Ok([])
    else Then(ExpandPiece(s, ps[0], seen), Expand(s, ps[1..], seen))
  }

  /** A name is replaced by the expansion of its value, unless it is ignored. */
  function ExpandPiece(s: Settings, p: Piece, seen: seq<string>): Result<seq<Piece>>
    decreases |Unused(s, seen)|, 0
  {
    if p.Lit? || p.name in s.ignored then Ok([p])
    else if p.name in seen then Err(Circular(p.name))
    else if Lookup(s, p.name).None? then if s.ignoreError then Ok([p]) else Err(Unknown(p.name))
    else if Body(s, p.name).None? then Err(Unsupported(p.name))
    else
      UnusedFalls(s, seen, p.name);
      Expand(s, Body(s, p.name).value, seen + [p.name])
  }

  lemma {:induction false} ExpandAppend(s: Settings, a: seq<Piece>, b: seq<Piece>, seen: seq<string>)
    ensures Expand(s, a + b, seen) == Then(Expand(s, a, seen), Expand(s, b, seen))
    decreases |a|
  {
    hide ExpandPiece;
    if a == [] {
      assert a + b == b;
      assert Expand(s, b, seen).Ok? ==> [] + Expand(s, b, seen).value == Expand(s, b, seen).value;
    } else {
      assert (a + b)[1..] == a[1..] + b;
      ExpandAppend(s, a[1..], b, seen);
      ThenAssoc(ExpandPiece(s, a[0], seen), Expand(s, a[1..], seen), Expand(s, b, seen));
    }
  }

  lemma ThenAssoc(a: Result<seq<Piece>>, b: Result<seq<Piece>>, c: Result<seq<Piece>>)
    ensures Then(a, Then(b, c)) == Then(Then(a, b), c)
  {
    if a.Ok? && b.Ok? && c.Ok? {
      assert a.value + (b.value + c.value) == a.value + b.value + c.value;
    }
  }

  // ----- results are stable -----

  /** Names that are left alone. */
  predicate Skips(s: Settings, name: string) {
    name in s.ignored || (s.ignoreError && Lookup(s, name).None?)
  }

  predicate StablePiece(s: Settings, p: Piece) {
    p.Ref? ==> Skips(s, p.name)
  }

  predicate Stable(s: Settings, ps: seq<Piece>) {
    forall i :: 0 <= i < |ps| ==> StablePiece(s, ps[i])
  }

  /** The names on the way down have values. */
  predicate AllKnown(s: Settings, seen: seq<string>) {
    forall i :: 0 <= i < |seen| ==> Lookup(s, seen[i]).Some?
  }

  lemma {:induction false} ExpandStable(s: Settings, ps: seq<Piece>, seen: seq<string>)
    requires AllKnown(s, seen) && Stable(s, ps)
    ensures Expand(s, ps, seen) == Ok(ps)
    decreases |ps|
  {
    if ps != [] {
      assert StablePiece(s, ps[0]);
      ExpandStable(s, ps[1..], seen);
      assert ps == [ps[0]] + ps[1..];
    }
  }

  lemma {:induction false} ExpandedIsStable(s: Settings, ps: seq<Piece>, seen: seq<string>)
    requires Good(ps) && Expand(s, ps, seen).Ok?
    ensures Stable(s, Expand(s, ps, seen).value) && Good(Expand(s, ps, seen).value)
    decreases |Unused(s, seen)|, |ps|
  {
    hide GoodPiece;
    if ps != [] {
      ExpandedIsStable(s, ps[1..], seen);
      var p := ps[0];
      assert GoodPiece(p);
      if p.Ref? && p.name !in s.ignored && Lookup(s, p.name).Some? {
        UnusedFalls(s, seen, p.name);
        ExpandedIsStable(s, Body(s, p.name).value, seen + [p.name]);
      }
    }
  }

  // ----- the rewriting loop -----

  /** The index of the first wildcard. */
  function FirstRef(ps: seq<Piece>): (k: nat)
    ensures k <= |ps| && (forall i :: 0 <= i < k ==> ps[i].Lit?) && (k < |ps| ==> ps[k].Ref?)
  {
    if ps == [] || ps[0].Ref? then 0 else 1 + FirstRef(ps[1..])
  }

  /** What the regular expression finds in a rendered string. */
  lemma {:induction false} SearchRender(ps: seq<Piece>)
    requires Good(ps)
    ensures Search(Render(ps)) == if FirstRef(ps) == |ps| then None
                                  else Some((FirstRef(ps), FirstRef(ps) + |ps[FirstRef(ps)].name| + 2))
  {
    hide MatchFront, GoodPiece;
    if ps == [] {
      NoPieces();
    } else {
      FrontOfRender(ps);
      SearchFront(Render(ps));
      if ps[0].Lit? {
        SearchRender(ps[1..]);
      }
    }
  }

  lemma SearchFront(s: string)
    requires s != ""
    ensures match Front(s)
            case None => true
            case Some(Ref(name)) => Search(s) == Some((0, |name| + 2))
            case Some(Lit(_)) =>
              FrontLength(s) == 1 &&
              Search(s) == if Search(s[1..]).None? then None
                           else Some((Search(s[1..]).value.0 + 1, Search(s[1..]).value.1 + 1))
  {
    hide MatchFront;
  }

  /** The text around the first wildcard. */
  lemma SplitRender(ps: seq<Piece>)
    requires Good(ps) && FirstRef(ps) < |ps|
    ensures var k := FirstRef(ps);
            var (s, name) := (Render(ps), ps[k].name);
            && k + |name| + 2 <= |s|
            && s[..k] == Render(ps[..k]) && s[k + 1..k + |name| + 1] == name &&
                s[k + |name| + 2..] == Render(ps[k + 1..])
  {
    hide Good, GoodPiece, Text, Render, FirstRef;
    var k := FirstRef(ps);
    var rest := [ps[k]] + ps[k + 1..];
    assert ps == ps[..k] + rest;
    RenderAppend(ps[..k], rest);
    LiteralLength(ps[..k]);
    assert ps[k] == Ref(ps[k].name);
    RenderCons(ps[k], ps[k + 1..]);
    AroundWildcard(Render(ps[..k]), ps[k].name, Render(ps[k + 1..]));
  }

  lemma RenderCons(p: Piece, ps: seq<Piece>)
    ensures Render([p] + ps) == Text(p) + Render(ps)
  {
    assert ([p] + ps)[1..] == ps;
  }

  lemma AroundWildcard(left: string, name: string, right: string)
    ensures var (s, k) := (left + (Text(Ref(name)) + right), |left|);
            && k + |name| + 2 <= |s|
            && s[..k] == left && s[k + 1..k + |name| + 1] == name && s[k + |name| + 2..] == right
  {
  }

  lemma {:induction false} LiteralLength(ps: seq<Piece>)
    requires forall i :: 0 <= i < |ps| ==> ps[i].Lit?
    ensures |Render(ps)| == |ps|
  {
    if ps != [] {
      LiteralLength(ps[1..]);
    }
  }

  function Open(s: Settings, ps: seq<Piece>): nat {
    if ps == [] then 0 else (if StablePiece(s, ps[0]) then 0 else 1) + Open(s, ps[1..])
  }

  lemma {:induction false} OpenAppend(s: Settings, a: seq<Piece>, b: seq<Piece>)
    ensures Open(s, a + b) == Open(s, a) + Open(s, b)
  {
    if a == [] {
      assert a + b == b;
    } else {
      assert (a + b)[1..] == a[1..] + b;
      OpenAppend(s, a[1..], b);
    }
  }

  lemma {:induction false} OpenStable(s: Settings, ps: seq<Piece>)
    requires Stable(s, ps)
    ensures Open(s, ps) == 0
  {
    if ps != [] {
      assert StablePiece(s, ps[0]);
      OpenStable(s, ps[1..]);
    }
  }

  /** Around the first wildcard of a sequence of pieces. */
  lemma ExpandAround(s: Settings, ps: seq<Piece>, seen: seq<string>)
    requires AllKnown(s, seen) && FirstRef(ps) < |ps|
    ensures var k := FirstRef(ps);
            Expand(s, ps, seen) == Then(Ok(ps[..k]), Then(ExpandPiece(s, ps[k], seen), Expand(s, ps[k + 1..], seen)))
  {
    hide ExpandPiece, AllKnown, Then;
    var k := FirstRef(ps);
    ExpandStable(s, ps[..k], seen);
    ExpandAppend(s, ps[..k], ps[k..], seen);
    assert ps == ps[..k] + ps[k..];
    assert ps[k..][1..] == ps[k + 1..];
  }

  /** Part of the way through the rewriting: `done` is what the search has passed, `rest` what it
      has yet to look at. */
  ghost predicate Rewriting(s: Settings, ps: seq<Piece>, seen: seq<string>, done: seq<Piece>, rest: seq<Piece>,
                            text: string, idx: nat)
  {
    && Good(done) && Good(rest)
    && idx == |Render(done)| && text == Render(done) + Render(rest)
    && Expand(s, ps, seen) == Then(Ok(done), Expand(s, rest, seen))
  }

  lemma RewritingStart(s: Settings, text: string, seen: seq<string>)
    requires Braced(text)
    ensures Rewriting(s, Pieces(text).value, seen, [], Pieces(text).value, text, 0)
  {
    hide Expand, Pieces;
    NoPieces();
    RenderOfPieces(text);
    ThenNothing(Expand(s, Pieces(text).value, seen));
  }

  lemma ThenNothing(r: Result<seq<Piece>>)
    ensures Then(Ok([]), r) == r
  {
    if r.Ok? {
      assert [] + r.value == r.value;
    }
  }

  lemma RewritingEnd(s: Settings, ps: seq<Piece>, seen: seq<string>, done: seq<Piece>, rest: seq<Piece>,
      text: string, idx: nat)
    requires AllKnown(s, seen) && Rewriting(s, ps, seen, done, rest, text, idx)
    requires FirstRef(rest) == |rest|
    ensures Expand(s, ps, seen) == Ok(done + rest) && text == Render(done + rest)
  {
    hide Expand, AllKnown, Good;
    ExpandStable(s, rest, seen);
    RenderAppend(done, rest);
  }

  lemma RewritingFails(s: Settings, ps: seq<Piece>, seen: seq<string>, done: seq<Piece>, rest: seq<Piece>,
      text: string, idx: nat)
    requires AllKnown(s, seen) && Rewriting(s, ps, seen, done, rest, text, idx)
    requires FirstRef(rest) < |rest| && ExpandPiece(s, rest[FirstRef(rest)], seen).Err?
    ensures Expand(s, ps, seen) == Err(ExpandPiece(s, rest[FirstRef(rest)], seen).error)
  {
    hide Expand, ExpandPiece, AllKnown, Good, Render;
    ExpandAround(s, rest, seen);
  }

  /** Going on after a wildcard that is left alone. */
  lemma RewritingSkips(s: Settings, ps: seq<Piece>, seen: seq<string>, done: seq<Piece>, rest: seq<Piece>,
      text: string, idx: nat)
    requires AllKnown(s, seen) && Rewriting(s, ps, seen, done, rest, text, idx)
    requires FirstRef(rest) < |rest| && ExpandPiece(s, rest[FirstRef(rest)], seen) == Ok([rest[FirstRef(rest)]])
    ensures var k := FirstRef(rest);
            && Rewriting(s, ps, seen, done + rest[..k + 1], rest[k + 1..], text, idx + k + |rest[k].name| + 2)
            && Open(s, rest[k + 1..]) <= Open(s, rest)
  {
    hide Expand, ExpandPiece, AllKnown, StablePiece, Good, Then, FirstRef, Open, Render;
    var k := FirstRef(rest);
    var left, right := rest[..k + 1], rest[k + 1..];
    assert rest == left + right;
    SkippedExpansion(s, ps, seen, done, rest);
    OpenAppend(s, left, right);
    GoodParts(done, rest, k + 1);
    SkippedText(done, left, right);
    LeftLength(rest, k);
  }

  lemma SkippedExpansion(s: Settings, ps: seq<Piece>, seen: seq<string>, done: seq<Piece>, rest: seq<Piece>)
    requires AllKnown(s, seen) && FirstRef(rest) < |rest|
    requires ExpandPiece(s, rest[FirstRef(rest)], seen) == Ok([rest[FirstRef(rest)]])
    ensures var k := FirstRef(rest);
            Then(Ok(done), Expand(s, rest, seen)) == Then(Ok(done + rest[..k + 1]), Expand(s, rest[k + 1..], seen))
  {
    hide Expand, ExpandPiece, AllKnown, FirstRef;
    var k := FirstRef(rest);
    var right := Expand(s, rest[k + 1..], seen);
    assert rest[..k + 1] == rest[..k] + [rest[k]];
    ExpandAround(s, rest, seen);
    ThenAssoc(Ok(rest[..k]), Ok([rest[k]]), right);
    ThenAssoc(Ok(done), Ok(rest[..k + 1]), right);
  }

  lemma SkippedText(done: seq<Piece>, left: seq<Piece>, right: seq<Piece>)
    ensures Render(done) + Render(left + right) == Render(done + left) + Render(right)
    ensures |Render(done + left)| == |Render(done)| + |Render(left)|
  {
    hide Render;
    RenderAppend(left, right);
    RenderAppend(done, left);
    ConcatAssoc(Render(done), Render(left), Render(right));
  }

  lemma GoodParts(done: seq<Piece>, rest: seq<Piece>, n: nat)
    requires Good(done) && Good(rest) && n <= |rest|
    ensures Good(done + rest[..n]) && Good(rest[n..])
  {
    hide GoodPiece;
  }

  lemma LeftLength(ps: seq<Piece>, k: nat)
    requires k < |ps| && ps[k].Ref? && forall i :: 0 <= i < k ==> ps[i].Lit?
    ensures |Render(ps[..k + 1])| == k + |ps[k].name| + 2
  {
    assert ps[..k + 1] == ps[..k] + [ps[k]];
    RenderAppend(ps[..k], [ps[k]]);
    LiteralLength(ps[..k]);
    assert Render([ps[k]]) == Text(ps[k]) + Render([ps[k]][1..]);
  }

  /** Going on after a wildcard was replaced by its expanded value, which is searched again. */
  lemma RewritingReplaces(s: Settings, ps: seq<Piece>, seen: seq<string>, done: seq<Piece>, rest: seq<Piece>,
                          text: string, idx: nat, value: seq<Piece>)
    requires AllKnown(s, seen) && Rewriting(s, ps, seen, done, rest, text, idx)
    requires FirstRef(rest) < |rest| && ExpandPiece(s, rest[FirstRef(rest)], seen) == Ok(value)
    requires Stable(s, value) && Good(value) && !StablePiece(s, rest[FirstRef(rest)])
    ensures var k := FirstRef(rest);
            var right := text[idx..];
            var rest' := rest[..k] + value + rest[k + 1..];
            && k + |rest[k].name| + 2 <= |right|
            && Rewriting(s, ps, seen, done, rest',
                text[..idx] + right[..k] + Render(value) + right[k + |rest[k].name| + 2..], idx)
            && Open(s, rest') < Open(s, rest)
  {
    hide Expand, ExpandPiece, AllKnown, StablePiece, Good, FirstRef, Then, Stable, Open, Render;
    var k := FirstRef(rest);
    var left, name, right := rest[..k], rest[k], rest[k + 1..];
    assert text[..idx] == Render(done) && text[idx..] == Render(rest);
    SplitRender(rest);
    ReplacedText(done, left, value, right);
    ReplacedExpansion(s, seen, rest, value);
    ReplacedOpen(s, left, name, right, value);
    assert rest == left + [name] + right;
    GoodReplaced(rest, k, value);
  }

  lemma GoodReplaced(ps: seq<Piece>, k: nat, value: seq<Piece>)
    requires Good(ps) && Good(value) && k < |ps|
    ensures Good(ps[..k] + value + ps[k + 1..])
  {
    hide GoodPiece;
  }

  lemma ReplacedText(done: seq<Piece>, left: seq<Piece>, value: seq<Piece>, right: seq<Piece>)
    ensures Render(done) + Render(left + value + right) == Render(done) + Render(left) + Render(value) + Render(right)
  {
    hide Render;
    RenderAppend(left + value, right);
    RenderAppend(left, value);
    ConcatAssoc(Render(done), Render(left) + Render(value), Render(right));
    ConcatAssoc(Render(done), Render(left), Render(value));
  }

  lemma ConcatAssoc(a: string, b: string, c: string)
    ensures a + (b + c) == a + b + c
  {
  }

  lemma ReplacedExpansion(s: Settings, seen: seq<string>, ps: seq<Piece>, value: seq<Piece>)
    requires AllKnown(s, seen) && FirstRef(ps) < |ps|
    requires ExpandPiece(s, ps[FirstRef(ps)], seen) == Ok(value) && Stable(s, value)
    ensures var k := FirstRef(ps);
            Expand(s, ps[..k] + value + ps[k + 1..], seen) == Expand(s, ps, seen)
  {
    hide Expand, ExpandPiece, AllKnown, StablePiece, FirstRef;
    var k := FirstRef(ps);
    var (left, right) := (ps[..k], ps[k + 1..]);
    ExpandAround(s, ps, seen);
    ThenAssoc(Ok(left), Ok(value), Expand(s, right, seen));
    LitsStable(s, left);
    ExpandStable(s, left, seen);
    ExpandStable(s, value, seen);
    ExpandAppend(s, left, value, seen);
    ExpandAppend(s, left + value, right, seen);
  }

  lemma LitsStable(s: Settings, ps: seq<Piece>)
    requires forall i :: 0 <= i < |ps| ==> ps[i].Lit?
    ensures Stable(s, ps)
  {
  }

  lemma ReplacedOpen(s: Settings, left: seq<Piece>, name: Piece, right: seq<Piece>, value: seq<Piece>)
    requires Stable(s, value) && !StablePiece(s, name)
    ensures Open(s, left + value + right) < Open(s, left + [name] + right)
  {
    hide StablePiece;
    OpenAppend(s, left + value, right);
    OpenAppend(s, left, value);
    OpenStable(s, value);
    OpenAppend(s, left + [name], right);
    OpenAppend(s, left, [name]);
    assert Open(s, [name]) == 1 + Open(s, [name][1..]);
  }

  // ----- the program -----

  /** A path of references from the pieces `ps`: each name but the last has a value that is
      expanded, and the next name occurs in it. */
  ghost predicate Path(s: Settings, ps: seq<Piece>, names: seq<string>)
    decreases |names|
  {
    && names != [] && Ref(names[0]) in ps && names[0] !in s.ignored
    && (|names| > 1 ==> Body(s, names[0]).Some? && Path(s, Body(s, names[0]).value, names[1..]))
  }

  /** A name that is expanded is not `eval_cmd`, which runs the text after it as a command, and
      if its value is made a string, every brace of that belongs to a wildcard. */
  predicate TameName(s: Settings, name: string) {
    name != "eval_cmd" && (BodyText(s, name).Some? ==> Braced(BodyText(s, name).value))
  }

  /** So it is for all names that can be reached from the pieces; what other values hold does not
      matter. */
  ghost predicate Tame(s: Settings, ps: seq<Piece>) {
    forall names :: Path(s, ps, names) ==> TameName(s, names[|names| - 1])
  }

  /** A name that occurs is reached, and what its value reaches is reached as well. */
  lemma TameInside(s: Settings, ps: seq<Piece>, name: string)
    requires Tame(s, ps) && Ref(name) in ps && name !in s.ignored
    ensures TameName(s, name)
    ensures Body(s, name).Some? ==> Tame(s, Body(s, name).value)
  {
    hide TameName, Body;
    assert Path(s, ps, [name]);
    assert [name][|[name]| - 1] == name;
    if Body(s, name).Some? {
      forall names | Path(s, Body(s, name).value, names)
        ensures TameName(s, names[|names| - 1])
      {
        var longer := [name] + names;
        assert longer[1..] == names && longer[0] == name;
        assert Path(s, ps, longer);
        assert longer[|longer| - 1] == names[|names| - 1];
      }
    }
  }

  /** If every value is properly braced and `eval_cmd` is ignored, everything is tame. */
  lemma TameSettings(s: Settings, ps: seq<Piece>)
    requires BracedSettings(s) && "eval_cmd" in s.ignored
    ensures Tame(s, ps)
  {
    forall names | Path(s, ps, names)
      ensures TameName(s, names[|names| - 1])
    {
      PathEnd(s, ps, names);
      var name := names[|names| - 1];
      hide BracedSettings, Pieces;
      if Lookup(s, name).Some? {
        LookupBraced(s, name);
        StringifyBraced(Lookup(s, name).value);
      }
    }
  }

  lemma {:induction false} PathEnd(s: Settings, ps: seq<Piece>, names: seq<string>)
    requires Path(s, ps, names)
    ensures names != [] && names[|names| - 1] !in s.ignored
    decreases |names|
  {
    if |names| > 1 {
      PathEnd(s, Body(s, names[0]).value, names[1..]);
    }
  }

  /** What is left to search holds no new wildcards but those that are left alone. */
  ghost predicate NothingNew(s: Settings, ps: seq<Piece>, rest: seq<Piece>) {
    forall i :: 0 <= i < |rest| && !StablePiece(s, rest[i]) ==> rest[i] in ps
  }

  lemma NothingNewStart(s: Settings, ps: seq<Piece>)
    ensures NothingNew(s, ps, ps)
  {
  }

  lemma NothingNewSkips(s: Settings, ps: seq<Piece>, rest: seq<Piece>, n: nat)
    requires NothingNew(s, ps, rest) && n <= |rest|
    ensures NothingNew(s, ps, rest[n..])
  {
    hide StablePiece;
  }

  lemma NothingNewReplaces(s: Settings, ps: seq<Piece>, rest: seq<Piece>, k: nat, value: seq<Piece>)
    requires NothingNew(s, ps, rest) && k < |rest| && Stable(s, value)
    ensures NothingNew(s, ps, rest[..k] + value + rest[k + 1..])
  {
    hide StablePiece;
    var rest' := rest[..k] + value + rest[k + 1..];
    forall i | 0 <= i < |rest'|
      ensures StablePiece(s, rest'[i]) || rest'[i] in ps
    {
      if i < k {
        assert rest'[i] == rest[i];
      } else if i < k + |value| {
        assert rest'[i] == value[i - k];
      } else {
        assert rest'[i] == rest[i - |value| + 1];
      }
    }
  }

  function Rendered(r: Result<seq<Piece>>): Result<string> {
    if r.Ok? then Ok(Render(r.value)) else Err(r.error)
  }

  /** `_subst_wildcards`: rewrites the string from left to right, and computes exactly the
      recursive expansion of its pieces, errors included. */
  method SubstWildcards(text: string, s: Settings, seen: seq<string>) returns (r: Result<string>)
    requires Braced(text) && Tame(s, Pieces(text).value) && AllKnown(s, seen)
    ensures r == Rendered(Expand(s, Pieces(text).value, seen))
    decreases |Unused(s, seen)|
  {
    hide Expand, Pieces, FirstRef, Render, Open, AllKnown, Rewriting, Tame, NothingNew, MatchFront;
    hide BodyText, Stringify, StablePiece, TameName;
    ghost var ps := Pieces(text).value;
    var var_, idx := text, 0;
    ghost var done, rest := [], ps;
    RewritingStart(s, text, seen);
    NothingNewStart(s, ps);
    while true
      invariant Rewriting(s, ps, seen, done, rest, var_, idx) && NothingNew(s, ps, rest)
      decreases Open(s, rest), |rest|
    {
      RewritingSearch(s, ps, seen, done, rest, var_, idx);
      var rightStr := var_[idx..];
      var m := Search(rightStr);
      if m.None? {
        RewritingEnd(s, ps, seen, done, rest, var_, idx);
        return Ok(var_);
      }
      var (start, end) := m.value;
      var name := rightStr[start + 1..end - 1];
      ghost var k := FirstRef(rest);
      if name in s.ignored {
        RewritingSkips(s, ps, seen, done, rest, var_, idx);
        NothingNewSkips(s, ps, rest, k + 1);
        idx := idx + end;
        done, rest := done + rest[..k + 1], rest[k + 1..];
        continue;
      }
      if name in seen {
        RewritingFails(s, ps, seen, done, rest, var_, idx);
        return Err(Circular(name));
      }
      var value := Lookup(s, name);
      if value.None? {
        if s.ignoreError {
          RewritingSkips(s, ps, seen, done, rest, var_, idx);
          NothingNewSkips(s, ps, rest, k + 1);
          idx := idx + end;
          done, rest := done + rest[..k + 1], rest[k + 1..];
          continue;
        }
        RewritingFails(s, ps, seen, done, rest, var_, idx);
        return Err(Unknown(name));
      }
      var str := Stringify(value.value);
      BodyIs(s, ps, rest, k);
      if str.None? {
        RewritingFails(s, ps, seen, done, rest, var_, idx);
        return Err(Unsupported(name));
      }
      UnusedFalls(s, seen, name);
      KnownMore(s, seen, name);
      var expanded := SubstWildcards(str.value, s, seen + [name]);
      if expanded.Err? {
        RewritingFails(s, ps, seen, done, rest, var_, idx);
        return expanded;
      }
      ghost var body := Expand(s, Body(s, name).value, seen + [name]).value;
      ExpandedIsStable(s, Body(s, name).value, seen + [name]);
      RewritingReplaces(s, ps, seen, done, rest, var_, idx, body);
      NothingNewReplaces(s, ps, rest, k, body);
      var_ := var_[..idx] + rightStr[..start] + expanded.value + rightStr[end..];
      rest := rest[..k] + body + rest[k + 1..];
    }
  }

  lemma RewritingSearch(s: Settings, ps: seq<Piece>, seen: seq<string>, done: seq<Piece>, rest: seq<Piece>,
      text: string, idx: nat)
    requires Rewriting(s, ps, seen, done, rest, text, idx)
    ensures idx <= |text|
    ensures var k := FirstRef(rest);
            if k == |rest| then Search(text[idx..]).None?
            else && Search(text[idx..]) == Some((k, k + |rest[k].name| + 2))
                 && k + |rest[k].name| + 2 <= |text[idx..]| &&
                     text[idx..][k + 1..k + |rest[k].name| + 1] == rest[k].name
  {
    hide Expand, GoodPiece, Search;
    assert text[idx..] == Render(rest);
    SearchRender(rest);
    if FirstRef(rest) < |rest| {
      SplitRender(rest);
    }
  }

  /** The wildcard about to be expanded was in the string from the start, so its value is tame. */
  lemma BodyIs(s: Settings, ps: seq<Piece>, rest: seq<Piece>, k: nat)
    requires Tame(s, ps) && NothingNew(s, ps, rest) && k < |rest| && rest[k].Ref? && rest[k].name !in s.ignored
    requires Lookup(s, rest[k].name).Some?
    ensures !StablePiece(s, rest[k])
    ensures var (name, str) := (rest[k].name, Stringify(Lookup(s, rest[k].name).value));
            && (Body(s, name).Some? <==> str.Some?)
            && (str.Some? ==>
                  Braced(str.value) && Body(s, name) == Pieces(str.value) && Tame(s, Pieces(str.value).value))
  {
    hide Pieces, Tame;
    assert rest[k] in ps && rest[k] == Ref(rest[k].name);
    TameInside(s, ps, rest[k].name);
  }

  lemma KnownMore(s: Settings, seen: seq<string>, name: string)
    requires AllKnown(s, seen) && Lookup(s, name).Some?
    ensures AllKnown(s, seen + [name])
  {
  }

  /** `subst_wildcards`; an error ends the original program after it was logged. */
  method Subst(text: string, s: Settings) returns (r: Result<string>)
    requires Braced(text) && Tame(s, Pieces(text).value)
    ensures r == Rendered(Expand(s, Pieces(text).value, []))
  {
    r := SubstWildcards(text, s, []);
  }

  /** Wildcards that are left in an expansion, unless ignored, were reached from the string. */
  lemma {:induction false} LeftIsReached(s: Settings, ps: seq<Piece>, seen: seq<string>, name: string)
      returns (names: seq<string>)
    requires Expand(s, ps, seen).Ok? && Ref(name) in Expand(s, ps, seen).value && name !in s.ignored
    ensures Path(s, ps, names) && names[|names| - 1] == name
    decreases |Unused(s, seen)|, |ps|
  {
    hide Body;
    var p := ps[0];
    if Ref(name) in ExpandPiece(s, p, seen).value {
      if p == Ref(name) {
        names := [name];
      } else {
        UnusedFalls(s, seen, p.name);
        var more := LeftIsReached(s, Body(s, p.name).value, seen + [p.name], name);
        names := [p.name] + more;
        assert names[1..] == more;
      }
    } else {
      names := LeftIsReached(s, ps[1..], seen, name);
    }
  }

  /** The result of a substitution is tame as well. */
  lemma TameResult(s: Settings, ps: seq<Piece>)
    requires Tame(s, ps) && Good(ps) && Expand(s, ps, []).Ok?
    ensures Tame(s, Expand(s, ps, []).value)
  {
    var q := Expand(s, ps, []).value;
    ExpandedIsStable(s, ps, []);
    hide Expand, Good;
    forall names | Path(s, q, names)
      ensures TameName(s, names[|names| - 1])
    {
      var name := names[0];
      var i :| 0 <= i < |q| && q[i] == Ref(name);
      assert StablePiece(s, q[i]);
      assert Body(s, name).None? && |names| == 1;
      var reached := LeftIsReached(s, ps, [], name);
    }
  }

  /** Substituting again is possible and changes nothing. */
  lemma SubstAgain(text: string, s: Settings)
    requires Braced(text) && Tame(s, Pieces(text).value) && Expand(s, Pieces(text).value, []).Ok?
    ensures var t := Render(Expand(s, Pieces(text).value, []).value);
            Braced(t) && Tame(s, Pieces(t).value) && Rendered(Expand(s, Pieces(t).value, [])) == Ok(t)
  {
    hide Pieces, Expand, Tame;
    var ps := Pieces(text).value;
    ExpandedIsStable(s, ps, []);
    TameResult(s, ps);
    var q := Expand(s, ps, []).value;
    PiecesOfRender(q);
    ExpandStable(s, q, []);
  }

  // ----- when a substitution succeeds -----

  /** The path, entered by way of `seen`, ends in a name it has passed before, in one without a
      value, or in one whose value cannot be made a string. */
  ghost predicate BadEnd(s: Settings, seen: seq<string>, names: seq<string>)
  {
    names != [] &&
    var last := names[|names| - 1];
    || last in seen + names[..|names| - 1]
    || (Lookup(s, last).None? && !s.ignoreError)
    || (Lookup(s, last).Some? && BodyText(s, last).None?)
  }

  /** The error such an end amounts to. */
  function BadError(s: Settings, seen: seq<string>, names: seq<string>): Error
    requires names != []
  {
    var last := names[|names| - 1];
    if last in seen + names[..|names| - 1] then Circular(last)
    else if Lookup(s, last).None? then Unknown(last) else Unsupported(last)
  }

  lemma {:induction false} ExpandHasPiece(s: Settings, ps: seq<Piece>, seen: seq<string>, p: Piece)
    requires p in ps && Expand(s, ps, seen).Ok?
    ensures ExpandPiece(s, p, seen).Ok?
    decreases |ps|
  {
    hide ExpandPiece;
    if p != ps[0] {
      ExpandHasPiece(s, ps[1..], seen, p);
    }
  }

  lemma {:induction false} ErrorHasPiece(s: Settings, ps: seq<Piece>, seen: seq<string>) returns (p: Piece)
    requires Expand(s, ps, seen).Err?
    ensures p in ps && ExpandPiece(s, p, seen) == Err(Expand(s, ps, seen).error)
    decreases |ps|
  {
    hide ExpandPiece;
    if ExpandPiece(s, ps[0], seen).Err? {
      p := ps[0];
    } else {
      p := ErrorHasPiece(s, ps[1..], seen);
    }
  }

  /** A bad path makes the expansion fail ... */
  lemma {:induction false} BadPathFails(s: Settings, ps: seq<Piece>, seen: seq<string>, names: seq<string>)
    requires AllKnown(s, seen) && Path(s, ps, names) && BadEnd(s, seen, names)
    ensures Expand(s, ps, seen).Err?
    decreases |names|
  {
    hide Expand;
    if Expand(s, ps, seen).Ok? {
      var name := names[0];
      ExpandHasPiece(s, ps, seen, Ref(name));
      if |names| > 1 {
        KnownMore(s, seen, name);
        assert seen + names[..|names| - 1] == seen + [name] + names[1..][..|names| - 2];
        BadPathFails(s, Body(s, name).value, seen + [name], names[1..]);
      }
    }
  }

  /** ... and a failing expansion has one. */
  lemma {:induction false} FailureHasBadPath(s: Settings, ps: seq<Piece>,
      seen: seq<string>) returns (names: seq<string>)
    requires Tame(s, ps) && Expand(s, ps, seen).Err?
    ensures Path(s, ps, names) && BadEnd(s, seen, names)
    ensures Expand(s, ps, seen).error == BadError(s, seen, names)
    decreases |Unused(s, seen)|, |ps|
  {
    hide Expand, Tame;
    var p := ErrorHasPiece(s, ps, seen);
    var name := p.name;
    TameInside(s, ps, name);
    if name in seen || Lookup(s, name).None? || Body(s, name).None? {
      names := [name];
    } else {
      UnusedFalls(s, seen, name);
      var more := FailureHasBadPath(s, Body(s, name).value, seen + [name]);
      names := [name] + more;
      assert names[1..] == more;
      assert seen + names[..|names| - 1] == seen + [name] + more[..|more| - 1];
    }
  }

  /** A substitution succeeds exactly when no path of references from the string runs into a
      cycle, into a name without a value (unless errors are ignored), or into a value of an
      unsupported type. */
  lemma SucceedsIff(text: string, s: Settings)
    requires Braced(text) && Tame(s, Pieces(text).value)
    ensures Expand(s, Pieces(text).value, []).Ok? <==>
            forall names :: Path(s, Pieces(text).value, names) ==> !BadEnd(s, [], names)
  {
    hide Expand, Pieces, Path, BadEnd, Tame;
    var ps := Pieces(text).value;
    if Expand(s, ps, []).Err? {
      var names := FailureHasBadPath(s, ps, []);
    } else {
      forall names | Path(s, ps, names)
        ensures !BadEnd(s, [], names)
      {
        if BadEnd(s, [], names) {
          BadPathFails(s, ps, [], names);
        }
      }
    }
  }
}
