/** Substitution of `{name}` wildcards. */
module Wildcards {
  import opened Wrappers

  /** The values of a configuration dictionary. */
  datatype Value = NoValue | Str(text: string) | Bool(flag: bool) | Int(number: int) | List(elements: seq<Value>) |
      Other

  datatype Error = Circular(name: string) | Unknown(name: string) | Unsupported(name: string)

  datatype Result<T> = Ok(value: T) | Err(error: Error)

  /** What a substitution works with; `env` is the process environment. */
  datatype Settings = Settings(mdict: map<string, Value>, env: map<string, string>, ignored: seq<string>,
      ignoreError: bool)

  /** The value of a name: from the dictionary, else from the environment. */
  function Lookup(s: Settings, name: string): (r: Option<Value>)
    ensures r.Some? <==> (name in s.mdict && s.mdict[name] != NoValue) || name in s.env
    ensures r.Some? ==>
              r.value == if name in s.mdict && s.mdict[name] != NoValue then s.mdict[name] else Str(s.env[name])
  {
    if name in s.mdict && s.mdict[name] != NoValue then Some(s.mdict[name])
    else if name in s.env then Some(Str(s.env[name]))
    else None
  }

  // ----- values as strings -----

  function Decimal(n: nat): string {
    if n < 10 then [('0' as int + n) as char] else Decimal(n / 10) + [('0' as int + n % 10) as char]
  }

  /** `_stringify_wildcard_value`; nothing for values of an unsupported type. */
  function Stringify(v: Value): Option<string>
    decreases v, 1, 0
  {
    match v
    case Str(text) => Some(text)
    case Bool(flag) => Some(if flag then "1" else "0")
    case Int(number) => Some(if number < 0 then "-" + Decimal(-number) else Decimal(number))
    case List(elements) => Join(v, |elements|)
    case _ => None
  }

  /** The first `n` elements of a list as strings, separated by spaces. */
  function Join(v: Value, n: nat): Option<string>
    requires v.List? && n <= |v.elements|
    decreases v, 0, n
  {
    if n == 0 then Some("")
    else
      var last := Stringify(v.elements[n - 1]);
      if n == 1 then last
      else
        var init := Join(v, n - 1);
        if init.Some? && last.Some? then Some(init.value + " " + last.value) else None
  }

  /** A decimal number read digit by digit. */
  function ReadDigits(s: string): int {
    if s == "" then 0 else 10 * ReadDigits(s[..|s| - 1]) + (s[|s| - 1] as int - '0' as int)
  }

  function ReadInt(s: string): int {
    if s != "" && s[0] == '-' then -ReadDigits(s[1..]) else ReadDigits(s)
  }

  /** Only digits, and no leading zero. */
  predicate Digits(s: string) {
    && s != "" && (forall i :: 0 <= i < |s| ==> '0' <= s[i] <= '9')
    && (|s| > 1 ==> s[0] != '0')
  }

  /** A sign is there for negative numbers only. */
  predicate CanonicalInt(s: string) {
    if s != "" && s[0] == '-' then Digits(s[1..]) && s[1] != '0' else Digits(s)
  }

  lemma {:induction false} DecimalReads(n: nat)
    ensures Digits(Decimal(n)) && ReadDigits(Decimal(n)) == n
    ensures n > 0 ==> Decimal(n)[0] != '0'
  {
    var s := Decimal(n);
    if n < 10 {
      assert s[..0] == "";
    } else {
      DecimalReads(n / 10);
      assert s[..|s| - 1] == Decimal(n / 10);
    }
  }

  /** Numbers are written in decimal, without leading zeros; true is 1 and false is 0. */
  lemma StringifyNumber(v: Value)
    requires v.Int? || v.Bool?
    ensures Stringify(v).Some? && CanonicalInt(Stringify(v).value)
    ensures ReadInt(Stringify(v).value) == if v.Int? then v.number else if v.flag then 1 else 0
  {
    hide Decimal, ReadDigits;
    match v {
      case Int(number) =>
        DecimalReads(if number < 0 then -number else number);
        if number < 0 {
          assert ("-" + Decimal(-number))[1..] == Decimal(-number);
        }
      case Bool(flag) =>
        OneDigit('0');
        OneDigit('1');
    }
  }

  lemma OneDigit(c: char)
    ensures ReadDigits([c]) == c as int - '0' as int
  {
    assert [c][..0] == "";
  }

  /** Where the string of the `i`-th element starts in the string of a list. */
  function Offset(es: seq<Value>, i: nat): nat
    requires i <= |es| && forall j :: 0 <= j < i ==> Stringify(es[j]).Some?
  {
    if i == 0 then 0 else Offset(es, i - 1) + |Stringify(es[i - 1]).value| + 1
  }

  /** The strings of the first `n` elements, in order, with single spaces between them. */
  ghost predicate Spaced(es: seq<Value>, n: nat, r: string)
    requires n <= |es| && forall j :: 0 <= j < n ==> Stringify(es[j]).Some?
  {
    && |r| == (if n == 0 then 0 else Offset(es, n) - 1)
    && forall i :: 0 <= i < n ==>
         var (s, at) := (Stringify(es[i]).value, Offset(es, i));
         && at + |s| <= |r| && r[at..at + |s|] == s
         && (i > 0 ==> 0 < at <= |r| && r[at - 1] == ' ')
  }

  lemma OffsetNext(es: seq<Value>, i: nat)
    requires i < |es| && forall j :: 0 <= j <= i ==> Stringify(es[j]).Some?
    ensures Offset(es, i + 1) == Offset(es, i) + |Stringify(es[i]).value| + 1
    ensures Offset(es, 0) == 0
  {
    hide Stringify;
  }

  lemma {:induction false} OffsetsBelow(es: seq<Value>, n: nat, i: nat)
    requires i < n <= |es| && forall j :: 0 <= j < n ==> Stringify(es[j]).Some?
    ensures Offset(es, i) + |Stringify(es[i]).value| + 1 <= Offset(es, n)
  {
    hide Stringify, Offset;
    OffsetNext(es, n - 1);
    if i < n - 1 {
      OffsetsBelow(es, n - 1, i);
    }
  }

  lemma {:induction false} JoinSpaced(v: Value, n: nat)
    requires v.List? && n <= |v.elements|
    ensures Join(v, n).Some? <==> forall i :: 0 <= i < n ==> Stringify(v.elements[i]).Some?
    ensures Join(v, n).Some? ==> Spaced(v.elements, n, Join(v, n).value)
    decreases n
  {
    hide Stringify, Offset, Spaced;
    if n == 0 {
      SpacedFirst(v.elements);
    } else {
      JoinSpaced(v, n - 1);
      if Join(v, n).Some? {
        if n == 1 {
          SpacedFirst(v.elements);
        } else {
          SpacedNext(v.elements, n - 1, Join(v, n - 1).value);
        }
      }
    }
  }

  lemma SpacedFirst(es: seq<Value>)
    ensures Spaced(es, 0, "")
    ensures es != [] && Stringify(es[0]).Some? ==> Spaced(es, 1, Stringify(es[0]).value)
  {
    hide Stringify;
    if es != [] && Stringify(es[0]).Some? {
      OffsetNext(es, 0);
      hide Offset;
    }
  }

  lemma SpacedNext(es: seq<Value>, n: nat, r: string)
    requires 0 < n < |es| && forall j :: 0 <= j <= n ==> Stringify(es[j]).Some?
    requires Spaced(es, n, r)
    ensures Spaced(es, n + 1, r + " " + Stringify(es[n]).value)
  {
    hide Stringify, Offset;
    OffsetNext(es, n);
    OffsetsBelow(es, n, n - 1);
    var r' := r + " " + Stringify(es[n]).value;
    forall i | 0 <= i <= n
      ensures var (s, at) := (Stringify(es[i]).value, Offset(es, i));
              && at + |s| <= |r'| && r'[at..at + |s|] == s
              && (i > 0 ==> 0 < at <= |r'| && r'[at - 1] == ' ')
    {
      var (s, at) := (Stringify(es[i]).value, Offset(es, i));
      if i < n {
        assert r'[at..at + |s|] == r[at..at + |s|];
      }
    }
  }

  /** Strings stay as they are; a list becomes the strings of its elements, in order, with single
      spaces between them, if all of them have one; nothing else has a string. */
  lemma StringifyIs(v: Value)
    ensures v.Str? ==> Stringify(v) == Some(v.text)
    ensures v.List? ==> (Stringify(v).Some? <==> forall x :: x in v.elements ==> Stringify(x).Some?)
    ensures v.List? && Stringify(v).Some? ==> Spaced(v.elements, |v.elements|, Stringify(v).value)
    ensures v.NoValue? || v.Other? ==> Stringify(v).None?
  {
    if v.List? {
      JoinSpaced(v, |v.elements|);
    }
  }

  // ----- the regular expression {([A-Za-z0-9\_]+)} -----

  predicate IsNameChar(c: char) {
    'A' <= c <= 'Z' || 'a' <= c <= 'z' || '0' <= c <= '9' || c == '_'
  }

  /** The characters from `first` on, `n` of them. */
  function From(first: char, n: nat): (r: string)
    requires first as int + n <= 128
  {
    seq(n, i requires 0 <= i < n => (first as int + i) as char)
  }

  /** Letters, digits and the underscore, and nothing else. */
  lemma NameChars(c: char)
    ensures IsNameChar(c) <==> c in From('A', 26) + From('a', 26) + From('0', 10) + "_"
  {
    FromHas('A', 26, c);
    FromHas('a', 26, c);
    FromHas('0', 10, c);
    hide From;
    assert c in "_" <==> c == '_';
  }

  lemma FromHas(first: char, n: nat, c: char)
    requires first as int + n <= 128
    ensures c in From(first, n) <==> first as int <= c as int < first as int + n
  {
    if first as int <= c as int < first as int + n {
      assert From(first, n)[c as int - first as int] == c;
    }
  }

  /** The number of name characters at the front. */
  function NameLength(s: string): (n: nat)
    ensures n <= |s| && (forall i :: 0 <= i < n ==> IsNameChar(s[i])) && (n < |s| ==> !IsNameChar(s[n]))
  {
    if s != "" && IsNameChar(s[0]) then 1 + NameLength(s[1..]) else 0
  }

  /** The end of the match at the front of `s`, if there is one. */
  function MatchFront(s: string): (r: Option<nat>)
    ensures r.Some? ==> 3 <= r.value <= |s| && s[0] == '{' && s[r.value - 1] == '}'
    ensures r.Some? ==> forall i :: 0 < i < r.value - 1 ==> IsNameChar(s[i])
  {
    if s != "" && s[0] == '{' then
      var n := NameLength(s[1..]);
      if 0 < n && n + 1 < |s| && s[n + 1] == '}' then Some(n + 2) else None
    else None
  }

  /** Start and end of the leftmost match. */
  function Search(s: string): (r: Option<(nat, nat)>)
    ensures r.Some? ==> r.value.0 + 3 <= r.value.1 <= |s|
  {
    if s == "" then None
    else if MatchFront(s).Some? then Some((0, MatchFront(s).value))
    else
      var rest := Search(s[1..]);
      if rest.Some? then Some((rest.value.0 + 1, rest.value.1 + 1)) else None
  }

  /** There is a match where the search says, and none to the left of it. */
  lemma {:induction false} SearchIsLeftmost(s: string, p: nat)
    requires p <= |s|
    ensures Search(s).Some? && p == Search(s).value.0 ==> MatchFront(s[p..]) == Some(Search(s).value.1 - p)
    ensures (Search(s).Some? ==> p < Search(s).value.0) ==> MatchFront(s[p..]).None?
  {
    hide MatchFront;
    assert s[0..] == s;
    if s == "" {
      assert MatchFront("").None? by { NothingInEmpty(); }
    } else if p > 0 {
      assert s[p..] == s[1..][p - 1..];
      SearchIsLeftmost(s[1..], p - 1);
    }
  }

  lemma NothingInEmpty()
    ensures MatchFront("").None?
  {
  }

  // ----- strings in which every brace belongs to a wildcard -----

  datatype Piece = Lit(c: char) | Ref(name: string)

  predicate GoodPiece(p: Piece) {
    match p
    case Lit(c) => c != '{' && c != '}'
    case Ref(name) => name != "" && forall i :: 0 <= i < |name| ==> IsNameChar(name[i])
  }

  predicate Good(ps: seq<Piece>) {
    forall i :: 0 <= i < |ps| ==> GoodPiece(ps[i])
  }

  function Text(p: Piece): (s: string)
    ensures s != ""
  {
    match p
    case Lit(c) => [c]
    case Ref(name) => "{" + name + "}"
  }

  function Render(ps: seq<Piece>): string {
    if ps == [] then "" else Text(ps[0]) + Render(ps[1..])
  }

  /** The pieces of a string, or nothing if some brace is not part of a wildcard. */
  function Pieces(s: string): (r: Option<seq<Piece>>)
    ensures r.Some? ==> Good(r.value)
    decreases |s|
  {
    if s == "" then Some([])
    else
      var end := MatchFront(s);
      if end.None? && (s[0] == '{' || s[0] == '}') then None
      else
        var n := if end.Some? then end.value else 1;
        var rest := Pieces(s[n..]);
        if rest.None? then None
        else Some([if end.Some? then Ref(s[1..n - 1]) else Lit(s[0])] + rest.value)
  }

  predicate Braced(s: string) {
    Pieces(s).Some?
  }

  /** Every string in the value is braced properly. */
  predicate BracedValue(v: Value)
    decreases v, 0
  {
    match v
    case Str(text) => Braced(text)
    case List(elements) => forall i | 0 <= i < |elements| :: BracedValue(elements[i])
    case _ => true
  }

  predicate BracedSettings(s: Settings) {
    && (forall name :: name in s.mdict ==> BracedValue(s.mdict[name]))
    && (forall name :: name in s.env ==> Braced(s.env[name]))
  }

  lemma {:induction false} RenderAppend(a: seq<Piece>, b: seq<Piece>)
    ensures Render(a + b) == Render(a) + Render(b)
  {
    if a == [] {
      assert a + b == b;
    } else {
      assert (a + b)[1..] == a[1..] + b;
      RenderAppend(a[1..], b);
    }
  }

  lemma {:induction false} NameLengthIs(name: string, rest: string)
    requires forall i :: 0 <= i < |name| ==> IsNameChar(name[i])
    requires rest != "" && !IsNameChar(rest[0])
    ensures NameLength(name + rest) == |name|
  {
    if name == "" {
      assert name + rest == rest;
    } else {
      assert (name + rest)[1..] == name[1..] + rest;
      NameLengthIs(name[1..], rest);
    }
  }

  lemma MatchName(name: string, tail: string)
    requires GoodPiece(Ref(name))
    ensures var s := Text(Ref(name)) + tail;
            MatchFront(s) == Some(|name| + 2) && s[1..|name| + 1] == name && s[|name| + 2..] == tail
  {
    var s := "{" + name + "}" + tail;
    assert s[1..] == name + ("}" + tail);
    NameLengthIs(name, "}" + tail);
  }

  lemma MatchNothing(c: char, tail: string)
    requires GoodPiece(Lit(c))
    ensures var s := Text(Lit(c)) + tail;
            MatchFront(s).None? && s[0] == c && s[1..] == tail
  {
  }

  /** Length of the first piece of a string. */
  function FrontLength(s: string): (n: nat)
    requires s != ""
    ensures 0 < n <= |s|
  {
    if MatchFront(s).Some? then MatchFront(s).value else 1
  }

  /** The first piece of a string; a stray brace is none. */
  function Front(s: string): Option<Piece>
    requires s != ""
  {
    if MatchFront(s).Some? then Some(Ref(s[1..FrontLength(s) - 1]))
    else if s[0] == '{' || s[0] == '}' then None
    else Some(Lit(s[0]))
  }

  lemma FrontOfRender(ps: seq<Piece>)
    requires Good(ps) && ps != []
    ensures var s := Render(ps);
            s != "" && Front(s) == Some(ps[0]) && FrontLength(s) == |Text(ps[0])| &&
                s[FrontLength(s)..] == Render(ps[1..])
  {
    assert GoodPiece(ps[0]);
    assert Render(ps) == Text(ps[0]) + Render(ps[1..]);
    hide MatchFront, Render, GoodPiece, Good;
    match ps[0] {
      case Lit(c) => MatchNothing(c, Render(ps[1..]));
      case Ref(name) => MatchName(name, Render(ps[1..]));
    }
  }

  lemma PiecesFrom(s: string)
    requires s != ""
    ensures Pieces(s) == match Front(s)
                         case None => None
                         case Some(front) => match Pieces(s[FrontLength(s)..])
                                             case None => None
                                             case Some(rest) => Some([front] + rest)
  {
    hide MatchFront;
  }

  lemma FrontText(s: string)
    requires s != "" && Front(s).Some?
    ensures Text(Front(s).value) == s[..FrontLength(s)]
  {
    hide MatchFront;
    if MatchFront(s).Some? {
      var n := FrontLength(s);
      assert s[..n] == "{" + s[1..n - 1] + "}";
    } else {
      assert s[..1] == [s[0]];
    }
  }

  lemma {:induction false} PiecesOfRender(ps: seq<Piece>)
    requires Good(ps)
    ensures Pieces(Render(ps)) == Some(ps)
  {
    hide Pieces, Front, FrontLength, Render, GoodPiece, Text;
    if ps == [] {
      NoPieces();
    } else {
      FrontOfRender(ps);
      PiecesOfRender(ps[1..]);
      assert ps == [ps[0]] + ps[1..];
      PiecesFrom(Render(ps));
    }
  }

  lemma {:induction false} RenderOfPieces(s: string)
    requires Braced(s)
    ensures Render(Pieces(s).value) == s
    decreases |s|
  {
    hide Pieces, Front, FrontLength, Text;
    if s == "" {
      NoPieces();
    } else {
      var n := FrontLength(s);
      PiecesFrom(s);
      FrontText(s);
      RenderOfPieces(s[n..]);
      assert Pieces(s).value[1..] == Pieces(s[n..]).value;
      assert s == s[..n] + s[n..];
    }
  }

  lemma NoPieces()
    ensures Pieces("") == Some([]) && Render([]) == ""
  {
  }

  lemma PiecesAppend(a: string, b: string)
    requires Braced(a) && Braced(b)
    ensures Pieces(a + b) == Some(Pieces(a).value + Pieces(b).value)
  {
    RenderOfPieces(a);
    RenderOfPieces(b);
    RenderAppend(Pieces(a).value, Pieces(b).value);
    PiecesOfRender(Pieces(a).value + Pieces(b).value);
  }
}
