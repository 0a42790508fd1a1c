/** Cutting a JSON object or array out of surrounding text. */
module JsonFragment {
  import opened Prelude

  predicate IsOpener(c: char) {
    c == '{' || c == '['
  }

  predicate IsCloser(c: char) {
    c == '}' || c == ']'
  }

  predicate IsQuote(c: char) {
    c == '"' || c == '\''
  }

  function OpenerOf(closer: char): char {
    if closer == '}' then '{' else '['
  }

  // ---- the scanner -----------------------------------------------------------------------

  /** What the scanner remembers after an opener: the brackets still open, and where it is in a quoted text. */
  datatype State = State(stack: seq<char>, quote: Option<char>, escaped: bool)

  function Top(s: seq<char>): char
    requires s != []
  {
    s[|s| - 1]
  }

  function Next(st: State, c: char): State {
    if st.quote.Some? then
      if st.escaped then st.(escaped := false)
      else if c == '\\' then st.(escaped := true)
      else if c == st.quote.value then st.(quote := None)
      else st
    else if IsQuote(c) then st.(quote := Some(c))
    else if IsOpener(c) then st.(stack := st.stack + [c])
    else if IsCloser(c) && st.stack != [] && Top(st.stack) == OpenerOf(c) then st.(stack := st.stack[..|st.stack| - 1])
    else st
  }

  function Feed(st: State, text: string): State
    decreases text
  {
    if text == [] then st else Feed(Next(st, text[0]), text[1..])
  }

  /** The length of the shortest part of the text that closes every open bracket. */
  function Closing(st: State, text: string): Option<nat>
    decreases text
  {
    if text == [] then None
    else
      var st1 := Next(st, text[0]);
      if st1.stack == [] then Some(1)
      else
        match Closing(st1, text[1..])
        case None => None
        case Some(n) => Some(n + 1)
  }

  function Begin(opener: char): State {
    State([opener], None, false)
  }

  /** Where the first opener stands at or after a position, or the end. */
  function FirstOpener(text: string, from: nat): (i: nat)
    requires from <= |text|
    ensures from <= i <= |text| && (i < |text| ==> IsOpener(text[i]))
    ensures forall k :: from <= k < i ==> !IsOpener(text[k])
    decreases |text| - from
  {
    if from == |text| || IsOpener(text[from]) then from else FirstOpener(text, from + 1)
  }

  /** The position right after the closing of every open bracket, read from `index` on. */
  function EndFrom(st: State, text: string, index: nat): (end: Option<nat>)
    ensures end.Some? ==> index < end.value <= |text|
    decreases |text| - index
  {
    if index >= |text| then None
    else
      var st1 := Next(st, text[index]);
      if st1.stack == [] then Some(index + 1) else EndFrom(st1, text, index + 1)
  }

  function Fragment(text: string): (r: Option<string>) {
    var start := FirstOpener(text, 0);
    if start == |text| then None
    else
      match EndFrom(Begin(text[start]), text, start + 1)
      case None => None
      case Some(end) => Some(text[start..end])
  }

  lemma {:induction false} ClosingBounds(st: State, text: string)
    ensures Closing(st, text).Some? ==> 1 <= Closing(st, text).value <= |text|
    decreases text
  {
    if text != [] {
      ClosingBounds(Next(st, text[0]), text[1..]);
    }
  }

  lemma {:induction false} EndIsClosing(st: State, text: string, index: nat)
    requires index <= |text|
    ensures EndFrom(st, text, index)
            == match Closing(st, text[index..]) case None => None case Some(n) => Some(index + n)
    decreases |text| - index
  {
    if index < |text| {
      assert text[index..][0] == text[index] && text[index..][1..] == text[index + 1..];
      EndIsClosing(Next(st, text[index]), text, index + 1);
    }
  }

  /** The scanning loop, with its stack, quote and escape state. */
  method BalancedFragment(text: string) returns (r: Option<string>)
    ensures r == Fragment(text)
  {
    var start := 0;
    while start < |text| && !IsOpener(text[start])
      invariant start <= |text| && FirstOpener(text, start) == FirstOpener(text, 0)
    {
      start := start + 1;
    }
    if start == |text| {
      return None;
    }
    var stack: seq<char> := [text[start]];
    var quote: Option<char> := None;
    var escaped := false;
    var index := start + 1;
    while index < |text|
      invariant start < index <= |text| && stack != []
      invariant EndFrom(State(stack, quote, escaped), text, index) == EndFrom(Begin(text[start]), text, start + 1)
    {
      var c := text[index];
      if quote.Some? {
        if escaped {
          escaped := false;
        } else if c == '\\' {
          escaped := true;
        } else if c == quote.value {
          quote := None;
        }
      } else if IsQuote(c) {
        quote := Some(c);
      } else if IsOpener(c) {
        stack := stack + [c];
      } else if IsCloser(c) && stack[|stack| - 1] == OpenerOf(c) {
        stack := stack[..|stack| - 1];
        if stack == [] {
          return Some(text[start..index + 1]);
        }
      }
      index := index + 1;
    }
    return None;
  }

  // ---- what a fragment is, on every text -------------------------------------------------

  /** The text opens with a bracket and ends exactly where that bracket first closes. */
  predicate ClosesAtEnd(r: string) {
    r != [] && IsOpener(r[0]) && Closing(Begin(r[0]), r[1..]) == Some(|r| - 1)
  }

  predicate NoOpener(s: string) {
    forall k :: 0 <= k < |s| ==> !IsOpener(s[k])
  }

  /** A closing does not depend on what follows it. */
  lemma {:induction false} ClosingPrefix(st: State, text: string, more: string)
    requires Closing(st, text).Some?
    ensures Closing(st, text + more) == Closing(st, text)
    decreases text
  {
    assert (text + more)[1..] == text[1..] + more;
    if Next(st, text[0]).stack != [] {
      ClosingPrefix(Next(st, text[0]), text[1..], more);
    }
  }

  lemma {:induction false} ClosingTake(st: State, text: string)
    requires Closing(st, text).Some?
    ensures Closing(st, text).value <= |text|
    ensures Closing(st, text[..Closing(st, text).value]) == Closing(st, text)
    decreases text
  {
    ClosingBounds(st, text);
    var n := Closing(st, text).value;
    var st1 := Next(st, text[0]);
    assert text[..n][0] == text[0];
    if st1.stack != [] {
      ClosingTake(st1, text[1..]);
      assert text[..n][1..] == text[1..][..n - 1];
    }
  }

  lemma FirstOpenerAfter(p: string, r: string, s: string)
    requires NoOpener(p) && r != [] && IsOpener(r[0])
    ensures FirstOpener(p + r + s, 0) == |p|
  {
    var text := p + r + s;
    assert text[|p|] == r[0];
    assert forall k :: 0 <= k < |p| ==> text[k] == p[k];
  }

  /** The scanner returns `r` exactly when the text is `r` with no opener before it and anything after it, where
      `r` opens with a bracket and ends where that bracket first closes. */
  lemma FragmentIff(text: string, r: string)
    ensures Fragment(text) == Some(r) <==> exists p, s :: Splits(text, p, r, s)
  {
    if exists p, s :: Splits(text, p, r, s) {
      var p, s :| Splits(text, p, r, s);
      FragmentOfSplit(p, r, s);
    }
    if Fragment(text) == Some(r) {
      var p, s := FragmentSplits(text, r);
    }
  }

  predicate Splits(text: string, p: string, r: string, s: string) {
    text == p + r + s && NoOpener(p) && ClosesAtEnd(r)
  }

  lemma FragmentSplits(text: string, r: string) returns (p: string, s: string)
    requires Fragment(text) == Some(r)
    ensures Splits(text, p, r, s)
  {
    var start := FirstOpener(text, 0);
    var end := EndFrom(Begin(text[start]), text, start + 1).value;
    p, s := text[..start], text[end..];
    EndIsClosing(Begin(text[start]), text, start + 1);
    CutCloses(Begin(text[start]), text, start + 1, end);
    assert r[1..] == text[start + 1..end] && r[0] == text[start];
    assert text == p + r + s;
  }

  lemma CutCloses(st: State, text: string, index: nat, end: nat)
    requires index < end <= |text| && Closing(st, text[index..]) == Some(end - index)
    ensures Closing(st, text[index..end]) == Some(end - index)
  {
    ClosingTake(st, text[index..]);
    assert text[index..][..end - index] == text[index..end];
  }

  lemma FragmentOfSplit(p: string, r: string, s: string)
    requires NoOpener(p) && ClosesAtEnd(r)
    ensures Fragment(p + r + s) == Some(r)
  {
    var text := p + r + s;
    FirstOpenerAfter(p, r, s);
    assert text[|p|] == r[0];
    assert text[|p| + 1..] == r[1..] + s;
    ClosingPrefix(Begin(r[0]), r[1..], s);
    EndIsClosing(Begin(r[0]), text, |p| + 1);
    assert text[|p|..|p| + |r|] == r;
  }

  // ---- JSON texts, sections 2 to 7 of RFC 8259 -------------------------------------------

  /** One unit of a string: an unescaped character, an escaped one, or a \u escape. */
  datatype Unit = Plain(c: char) | Escape(c: char) | Unicode(hex: string)

  datatype Value =
    | Literal(word: string)
    | Number(text: string)
    | Text(units: seq<Unit>)
    | Array(elements: Elements, blank: string)
    | Object(members: Members, blank: string)

  datatype Elements = NoElements | Element(before: string, value: Value, after: string, rest: Elements)

  datatype Members = NoMembers
                   | Member(before: string, name: seq<Unit>, middle: string, gap: string, value: Value, after: string,
                            rest: Members)

  predicate IsWhitespace(s: string) {
    forall i :: 0 <= i < |s| ==> s[i] == ' ' || s[i] == '\t' || s[i] == '\n' || s[i] == '\r'
  }

  predicate IsHex(c: char) {
    '0' <= c <= '9' || 'a' <= c <= 'f' || 'A' <= c <= 'F'
  }

  predicate ValidUnit(u: Unit) {
    match u
    case Plain(c) => c != '"' && c != '\\' && c >= ' '
    case Escape(c) => c in ['"', '\\', '/', 'b', 'f', 'n', 'r', 't']
    case Unicode(hex) => |hex| == 4 && forall i :: 0 <= i < 4 ==> IsHex(hex[i])
  }

  predicate ValidUnits(units: seq<Unit>) {
    forall i :: 0 <= i < |units| ==> ValidUnit(units[i])
  }

  predicate IsNumberText(s: string) {
    s != [] && forall i :: 0 <= i < |s| ==> '0' <= s[i] <= '9' || s[i] in ['+', '-', '.', 'e', 'E']
  }

  predicate Valid(v: Value) {
    match v
    case Literal(word) => word in ["true", "false", "null"]
    case Number(text) => IsNumberText(text)
    case Text(units) => ValidUnits(units)
    case Array(elements, blank) => IsWhitespace(blank) && ValidElements(elements)
    case Object(members, blank) => IsWhitespace(blank) && ValidMembers(members)
  }

  predicate ValidElements(e: Elements) {
    match e
    case NoElements => true
    case Element(before, value, after, rest) =>
      IsWhitespace(before) && Valid(value) && IsWhitespace(after) && ValidElements(rest)
  }

  predicate ValidMembers(m: Members) {
    match m
    case NoMembers => true
    case Member(before, name, middle, gap, value, after, rest) =>
      && IsWhitespace(before) && ValidUnits(name) && IsWhitespace(middle) && IsWhitespace(gap)
      && Valid(value) && IsWhitespace(after) && ValidMembers(rest)
  }

  function RenderUnit(u: Unit): string {
    match u
    case Plain(c) => [c]
    case Escape(c) => ['\\', c]
    case Unicode(hex) => ['\\', 'u'] + hex
  }

  function RenderUnits(units: seq<Unit>): string {
    if units == [] then [] else RenderUnit(units[0]) + RenderUnits(units[1..])
  }

  function Quoted(units: seq<Unit>): string {
    ['"'] + RenderUnits(units) + ['"']
  }

  function Render(v: Value): string {
    match v
    case Literal(word) => word
    case Number(text) => text
    case Text(units) => Quoted(units)
    case Array(_, _) => ['['] + Inner(v) + [']']
    case Object(_, _) => ['{'] + Inner(v) + ['}']
  }

  /** What stands between the brackets. */
  function Inner(v: Value): string
    requires v.Array? || v.Object?
    decreases v, 0
  {
    match v
    case Array(elements, blank) => if elements.NoElements? then blank else RenderElements(elements)
    case Object(members, blank) => if members.NoMembers? then blank else RenderMembers(members)
  }

  function RenderElements(e: Elements): string {
    match e
    case NoElements => []
    case Element(before, value, after, rest) =>
      before + Render(value) + after + (if rest.NoElements? then [] else [','] + RenderElements(rest))
  }

  function RenderMembers(m: Members): string {
    match m
    case NoMembers => []
    case Member(before, name, middle, gap, value, after, rest) =>
      before + Quoted(name) + middle + [':'] + gap + Render(value) + after
      + (if rest.NoMembers? then [] else [','] + RenderMembers(rest))
  }

  // ---- texts the scanner passes over unchanged -------------------------------------------

  /** Outside quotes, with a bracket open. */
  predicate Outside(st: State) {
    st.stack != [] && st.quote.None? && !st.escaped
  }

  /** Scanning the text comes back to the same state and never closes the last bracket. */
  predicate Neutral(st: State, text: string) {
    Feed(st, text) == st && Closing(st, text).None?
  }

  lemma {:induction false} FeedConcat(st: State, a: string, b: string)
    ensures Feed(st, a + b) == Feed(Feed(st, a), b)
    ensures Closing(st, a).None? ==>
              Closing(st, a + b) == (match Closing(Feed(st, a), b) case None => None case Some(n) => Some(n + |a|))
    decreases a
  {
    if a == [] {
      assert a + b == b;
    } else {
      assert (a + b)[1..] == a[1..] + b;
      FeedConcat(Next(st, a[0]), a[1..], b);
    }
  }

  lemma NeutralConcat(st: State, a: string, b: string)
    requires Neutral(st, a) && Neutral(st, b)
    ensures Neutral(st, a + b)
  {
    FeedConcat(st, a, b);
  }

  predicate IsPlain(c: char) {
    !IsOpener(c) && !IsCloser(c) && !IsQuote(c)
  }

  lemma {:induction false} PlainNeutral(st: State, text: string)
    requires Outside(st) && forall i :: 0 <= i < |text| ==> IsPlain(text[i])
    ensures Neutral(st, text)
  {
    if text != [] {
      assert Next(st, text[0]) == st;
      PlainNeutral(st, text[1..]);
    }
  }

  /** Inside a double-quoted string a rendered unit leaves the scanner inside. */
  lemma UnitStaysInside(st: State, u: Unit)
    requires st.stack != [] && st.quote == Some('"') && !st.escaped && ValidUnit(u)
    ensures Neutral(st, RenderUnit(u))
  {
    match u
    case Plain(c) =>
      assert [c][1..] == [];
    case Escape(c) =>
      var escaping := st.(escaped := true);
      assert ['\\', c][1..] == [c] && [c][1..] == [];
      assert Next(st, '\\') == escaping && Next(escaping, c) == st;
      assert Feed(escaping, [c]) == st && Closing(escaping, [c]).None?;
    case Unicode(hex) =>
      var all := ['\\', 'u'] + hex;
      assert all[1..] == ['u'] + hex && (['u'] + hex)[1..] == hex;
      HexStaysInside(st, hex);
  }

  lemma {:induction false} HexStaysInside(st: State, hex: string)
    requires st.stack != [] && st.quote == Some('"') && !st.escaped && forall i :: 0 <= i < |hex| ==> IsHex(hex[i])
    ensures Neutral(st, hex)
  {
    if hex != [] {
      HexStaysInside(st, hex[1..]);
    }
  }

  lemma {:induction false} UnitsStayInside(st: State, units: seq<Unit>)
    requires st.stack != [] && st.quote == Some('"') && !st.escaped && ValidUnits(units)
    ensures Neutral(st, RenderUnits(units))
  {
    if units != [] {
      UnitStaysInside(st, units[0]);
      UnitsStayInside(st, units[1..]);
      NeutralConcat(st, RenderUnit(units[0]), RenderUnits(units[1..]));
    }
  }

  lemma QuotedNeutral(st: State, units: seq<Unit>)
    requires Outside(st) && ValidUnits(units)
    ensures Neutral(st, Quoted(units))
  {
    var inside := st.(quote := Some('"'));
    var body, tail := RenderUnits(units), RenderUnits(units) + ['"'];
    UnitsStayInside(inside, units);
    FeedConcat(inside, body, ['"']);
    assert ['"'][1..] == [];
    assert Quoted(units) == ['"'] + tail && (['"'] + tail)[1..] == tail;
  }

  /** A neutral text between matching brackets is neutral. */
  lemma BracketedNeutral(st: State, opener: char, closer: char, inner: string)
    requires Outside(st) && IsOpener(opener) && IsCloser(closer) && OpenerOf(closer) == opener
    requires Neutral(st.(stack := st.stack + [opener]), inner)
    ensures Neutral(st, [opener] + inner + [closer])
  {
    var deep := st.(stack := st.stack + [opener]);
    var tail := inner + [closer];
    FeedConcat(deep, inner, [closer]);
    assert [closer][1..] == [];
    assert deep.stack[..|deep.stack| - 1] == st.stack;
    assert [opener] + inner + [closer] == [opener] + tail && ([opener] + tail)[1..] == tail;
  }

  lemma {:induction false} ValueNeutral(st: State, v: Value)
    requires Outside(st) && Valid(v)
    ensures Neutral(st, Render(v))
    decreases v, 1
  {
    match v
    case Literal(word) => PlainNeutral(st, word);
    case Number(text) => PlainNeutral(st, text);
    case Text(units) => QuotedNeutral(st, units);
    case Array(_, _) =>
      InnerNeutral(st.(stack := st.stack + ['[']), v);
      BracketedNeutral(st, '[', ']', Inner(v));
    case Object(_, _) =>
      InnerNeutral(st.(stack := st.stack + ['{']), v);
      BracketedNeutral(st, '{', '}', Inner(v));
  }

  lemma {:induction false} InnerNeutral(st: State, v: Value)
    requires Outside(st) && Valid(v) && (v.Array? || v.Object?)
    ensures Neutral(st, Inner(v))
    decreases v, 0
  {
    match v
    case Array(elements, blank) =>
      PlainNeutral(st, blank);
      ElementsNeutral(st, elements);
    case Object(members, blank) =>
      PlainNeutral(st, blank);
      MembersNeutral(st, members);
  }

  lemma {:induction false} ElementsNeutral(st: State, e: Elements)
    requires Outside(st) && ValidElements(e)
    ensures Neutral(st, RenderElements(e))
    decreases e, 0
  {
    match e
    case NoElements =>
    case Element(before, value, after, rest) =>
      PlainNeutral(st, before);
      ValueNeutral(st, value);
      PlainNeutral(st, after);
      NeutralConcat(st, before, Render(value));
      NeutralConcat(st, before + Render(value), after);
      PlainNeutral(st, [',']);
      PlainNeutral(st, []);
      ElementsNeutral(st, rest);
      NeutralConcat(st, [','], RenderElements(rest));
      NeutralConcat(st, before + Render(value) + after, if rest.NoElements? then [] else [','] + RenderElements(rest));
  }

  lemma {:induction false} MembersNeutral(st: State, m: Members)
    requires Outside(st) && ValidMembers(m)
    ensures Neutral(st, RenderMembers(m))
    decreases m, 0
  {
    match m
    case NoMembers =>
    case Member(before, name, middle, gap, value, after, rest) =>
      var tail := if rest.NoMembers? then [] else [','] + RenderMembers(rest);
      MemberNameNeutral(st, before, name, middle, gap);
      ValueNeutral(st, value);
      PlainNeutral(st, after);
      PlainNeutral(st, [',']);
      PlainNeutral(st, []);
      MembersNeutral(st, rest);
      NeutralConcat(st, [','], RenderMembers(rest));
      var head := before + Quoted(name) + middle + [':'] + gap;
      NeutralConcat(st, head, Render(value));
      NeutralConcat(st, head + Render(value), after);
      NeutralConcat(st, head + Render(value) + after, tail);
  }

  lemma MemberNameNeutral(st: State, before: string, name: seq<Unit>, middle: string, gap: string)
    requires Outside(st) && IsWhitespace(before) && ValidUnits(name) && IsWhitespace(middle) && IsWhitespace(gap)
    ensures Neutral(st, before + Quoted(name) + middle + [':'] + gap)
  {
    PlainNeutral(st, before);
    QuotedNeutral(st, name);
    PlainNeutral(st, middle);
    PlainNeutral(st, [':']);
    PlainNeutral(st, gap);
    NeutralConcat(st, before, Quoted(name));
    NeutralConcat(st, before + Quoted(name), middle);
    NeutralConcat(st, before + Quoted(name) + middle, [':']);
    NeutralConcat(st, before + Quoted(name) + middle + [':'], gap);
  }

  /** An object or array text ends exactly where its own bracket closes. */
  lemma RenderedCloses(v: Value)
    requires Valid(v) && (v.Array? || v.Object?)
    ensures ClosesAtEnd(Render(v))
  {
    var opener := if v.Array? then '[' else '{';
    var closer := if v.Array? then ']' else '}';
    InnerNeutral(Begin(opener), v);
    FeedConcat(Begin(opener), Inner(v), [closer]);
    assert Render(v) == [opener] + (Inner(v) + [closer]);
    assert Render(v)[1..] == Inner(v) + [closer];
  }

  /** Any JSON object or array is cut out exactly, whatever text without an opener stands before it and whatever
      text stands after it. */
  lemma FragmentIsExact(p: string, v: Value, s: string)
    requires NoOpener(p) && Valid(v) && (v.Array? || v.Object?)
    ensures Fragment(p + Render(v) + s) == Some(Render(v))
  {
    RenderedCloses(v);
    FragmentOfSplit(p, Render(v), s);
  }
}
