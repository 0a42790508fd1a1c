/** What the bracket scanner takes for a fragment, said of the text alone: a bracket group of plain characters, quoted
    texts and further groups. Quotes of either kind hide brackets, a backslash hides a quote, and a closing bracket
    that does not fit is a plain character. */
module JsonGroups {
  import opened JsonFragment
  import opened Prelude

  // ---- groups ----------------------------------------------------------------------------

  datatype Sign = Plainly(c: char) | Escaping(c: char)

  datatype Piece = Lone(c: char) | Quotation(quote: char, signs: seq<Sign>) | Group(opener: char, inside: seq<Piece>)

  predicate Bracket(c: char) {
    c == '{' || c == '['
  }

  predicate Mark(c: char) {
    c == '"' || c == '\''
  }

  function Partner(opener: char): char {
    if opener == '{' then '}' else ']'
  }

  /** The sign neither ends the text it stands in nor hides the next one. */
  predicate SignFits(quote: char, sign: Sign) {
    sign.Plainly? ==> sign.c != quote && sign.c != '\\'
  }

  /** The piece can stand inside a group with this opener without closing it. */
  predicate Fits(opener: char, piece: Piece)
    decreases piece
  {
    match piece
    case Lone(c) => !Bracket(c) && !Mark(c) && c != Partner(opener)
    case Quotation(quote, signs) => Mark(quote) && forall i :: 0 <= i < |signs| ==> SignFits(quote, signs[i])
    case Group(other, inside) => Bracket(other) && forall i :: 0 <= i < |inside| ==> Fits(other, inside[i])
  }

  predicate AllFit(opener: char, pieces: seq<Piece>) {
    forall i :: 0 <= i < |pieces| ==> Fits(opener, pieces[i])
  }

  function SignText(sign: Sign): string {
    match sign
    case Plainly(c) => [c]
    case Escaping(c) => ['\\', c]
  }

  function Signs(signs: seq<Sign>): string {
    if signs == [] then ""
    else
      var n := |signs| - 1;
      Signs(signs[..n]) + SignText(signs[n])
  }

  function Written(piece: Piece): string
    decreases piece, 0
  {
    match piece
    case Lone(c) => [c]
    case Quotation(quote, signs) => [quote] + Signs(signs) + [quote]
    case Group(opener, inside) => [opener] + AllWritten(inside) + [Partner(opener)]
  }

  function AllWritten(pieces: seq<Piece>): string
    decreases pieces
  {
    if pieces == [] then "" else AllWritten(pieces[..|pieces| - 1]) + Written(pieces[|pieces| - 1])
  }

  // ---- the scanner passes over whatever fits ---------------------------------------------

  predicate Outside(st: State, opener: char) {
    st.quote == None && !st.escaped && st.stack != [] && Top(st.stack) == opener && Bracket(opener)
  }

  /** Reading the text first adds its length to where everything closes. */
  predicate Passes(st: State, text: string, rest: string) {
    Closing(st, rest).Some? ==> Closing(st, text + rest) == Some(|text| + Closing(st, rest).value)
  }

  lemma Joined(a: string, b: string, c: string, bc: string)
    requires b + c == bc
    ensures a + b + c == a + bc
  {
  }

  lemma Wrapped(a: string, b: string, c: string, d: string)
    ensures a + b + c + d == a + (b + (c + d))
  {
  }

  lemma ClosingCons(st: State, c: char, rest: string)
    ensures Closing(st, [c] + rest)
            == if Next(st, c).stack == [] then Some(1)
               else match Closing(Next(st, c), rest) case None => None case Some(n) => Some(n + 1)
  {
    assert ([c] + rest)[1..] == rest;
  }

  lemma SignPasses(st: State, quote: char, sign: Sign, rest: string)
    requires st.quote == Some(quote) && !st.escaped && st.stack != [] && SignFits(quote, sign)
    ensures Passes(st, SignText(sign), rest)
  {
    match sign
    case Plainly(c) =>
      ClosingCons(st, c, rest);
    case Escaping(c) =>
      ClosingCons(st, '\\', [c] + rest);
      ClosingCons(st.(escaped := true), c, rest);
      assert SignText(sign) + rest == ['\\'] + ([c] + rest);
      assert Next(st.(escaped := true), c) == st;
  }

  lemma {:induction false} SignsPass(st: State, quote: char, signs: seq<Sign>, rest: string)
    requires st.quote == Some(quote) && !st.escaped && st.stack != []
    requires forall i :: 0 <= i < |signs| ==> SignFits(quote, signs[i])
    ensures Passes(st, Signs(signs), rest)
    decreases |signs|
  {
    if signs == [] {
      assert "" + rest == rest;
    } else {
      var n := |signs| - 1;
      SignPasses(st, quote, signs[n], rest);
      SignsPass(st, quote, signs[..n], SignText(signs[n]) + rest);
      Joined(Signs(signs[..n]), SignText(signs[n]), rest, SignText(signs[n]) + rest);
    }
  }

  lemma QuotationPasses(st: State, opener: char, quote: char, signs: seq<Sign>, rest: string)
    requires Outside(st, opener) && Fits(opener, Quotation(quote, signs))
    ensures Passes(st, Written(Quotation(quote, signs)), rest)
  {
    var st1 := Next(st, quote);
    ClosingCons(st1, quote, rest);
    assert Next(st1, quote) == st;
    SignsPass(st1, quote, signs, [quote] + rest);
    ClosingCons(st, quote, Signs(signs) + ([quote] + rest));
    Wrapped([quote], Signs(signs), [quote], rest);
  }

  /** A group passes when its inside does. */
  lemma GroupPasses(st: State, opener: char, other: char, inside: seq<Piece>, rest: string)
    requires Outside(st, opener) && Bracket(other)
    requires Passes(Next(st, other), AllWritten(inside), [Partner(other)] + rest)
    ensures Passes(st, Written(Group(other, inside)), rest)
  {
    var st1 := Next(st, other);
    assert st1.stack[..|st1.stack| - 1] == st.stack;
    ClosingCons(st1, Partner(other), rest);
    assert Next(st1, Partner(other)) == st;
    ClosingCons(st, other, AllWritten(inside) + ([Partner(other)] + rest));
    Wrapped([other], AllWritten(inside), [Partner(other)], rest);
  }

  lemma {:induction false} PiecePasses(st: State, opener: char, piece: Piece, rest: string)
    requires Outside(st, opener) && Fits(opener, piece)
    ensures Passes(st, Written(piece), rest)
    decreases piece, 0
  {
    match piece
    case Lone(c) =>
      ClosingCons(st, c, rest);
    case Quotation(quote, signs) =>
      QuotationPasses(st, opener, quote, signs, rest);
    case Group(other, inside) =>
      PiecesPass(Next(st, other), other, inside, [Partner(other)] + rest);
      GroupPasses(st, opener, other, inside, rest);
  }

  lemma {:induction false} PiecesPass(st: State, opener: char, pieces: seq<Piece>, rest: string)
    requires Outside(st, opener) && AllFit(opener, pieces)
    ensures Passes(st, AllWritten(pieces), rest)
    decreases pieces
  {
    if pieces == [] {
      assert "" + rest == rest;
    } else {
      var n := |pieces| - 1;
      PiecePasses(st, opener, pieces[n], rest);
      PiecesPass(st, opener, pieces[..n], Written(pieces[n]) + rest);
      Joined(AllWritten(pieces[..n]), Written(pieces[n]), rest, Written(pieces[n]) + rest);
    }
  }

  lemma GroupCloses(opener: char, inside: seq<Piece>)
    requires Bracket(opener) && AllFit(opener, inside)
    ensures ClosesAtEnd(Written(Group(opener, inside)))
  {
    var st, close := Begin(opener), [Partner(opener)];
    assert close == [Partner(opener)] + "";
    ClosingCons(st, Partner(opener), "");
    PiecesPass(st, opener, inside, close);
    assert Written(Group(opener, inside))[1..] == AllWritten(inside) + close;
  }

  // ---- whatever closes is a group --------------------------------------------------------

  /** A group that is still open: its opener and the pieces read so far. */
  datatype Begun = Begun(opener: char, pieces: seq<Piece>)

  /** What was read so far: the open groups, outermost first, and the signs of a text that is still open. */
  datatype Reading = Reading(groups: seq<Begun>, signs: seq<Sign>)

  function GroupsRead(groups: seq<Begun>): string {
    if groups == [] then ""
    else
      var n := |groups| - 1;
      GroupsRead(groups[..n]) + [groups[n].opener] + AllWritten(groups[n].pieces)
  }

  function TextRead(st: State, signs: seq<Sign>): string {
    if st.quote.None? then "" else [st.quote.value] + Signs(signs) + if st.escaped then "\\" else ""
  }

  predicate GroupFits(group: Begun) {
    Bracket(group.opener) && AllFit(group.opener, group.pieces)
  }

  /** The state is where the scanner is after the reading. */
  predicate Reads(st: State, r: Reading) {
    && |st.stack| == |r.groups| > 0
    && (forall i :: 0 <= i < |r.groups| ==> r.groups[i].opener == st.stack[i] && GroupFits(r.groups[i]))
    && (st.quote.Some? ==> Mark(st.quote.value)
                           && forall i :: 0 <= i < |r.signs| ==> SignFits(st.quote.value, r.signs[i]))
    && (st.quote.None? ==> !st.escaped && r.signs == [])
  }

  function ReadText(st: State, r: Reading): string {
    GroupsRead(r.groups) + TextRead(st, r.signs)
  }

  /** The innermost group with one piece more. */
  function WithPiece(groups: seq<Begun>, piece: Piece): seq<Begun>
    requires groups != []
  {
    var n := |groups| - 1;
    groups[n := groups[n].(pieces := groups[n].pieces + [piece])]
  }

  lemma PieceRead(groups: seq<Begun>, piece: Piece)
    requires groups != []
    ensures GroupsRead(WithPiece(groups, piece)) == GroupsRead(groups) + Written(piece)
  {
    var n := |groups| - 1;
    var more := groups[n].pieces + [piece];
    assert more[..|more| - 1] == groups[n].pieces;
    assert WithPiece(groups, piece)[..n] == groups[..n];
  }

  lemma PieceKeeps(groups: seq<Begun>, piece: Piece)
    requires groups != [] && (forall i :: 0 <= i < |groups| ==> GroupFits(groups[i]))
    requires Fits(groups[|groups| - 1].opener, piece)
    ensures forall i :: 0 <= i < |groups| ==> GroupFits(WithPiece(groups, piece)[i])
  {
  }

  lemma SignStep(st: State, r: Reading, c: char) returns (r1: Reading)
    requires Reads(st, r) && st.quote.Some? && (st.escaped || (c != '\\' && c != st.quote.value))
    ensures Reads(Next(st, c), r1) && ReadText(Next(st, c), r1) == ReadText(st, r) + [c]
  {
    var sign := if st.escaped then Escaping(c) else Plainly(c);
    var signs := r.signs + [sign];
    assert signs[..|r.signs|] == r.signs;
    r1 := r.(signs := signs);
    assert TextRead(Next(st, c), signs) == TextRead(st, r.signs) + [c];
  }

  lemma QuoteStep(st: State, r: Reading) returns (r1: Reading)
    requires Reads(st, r) && st.quote.Some? && !st.escaped && st.quote.value != '\\'
    ensures var st1 := Next(st, st.quote.value);
            Reads(st1, r1) && ReadText(st1, r1) == ReadText(st, r) + [st.quote.value]
  {
    var text := Quotation(st.quote.value, r.signs);
    r1 := Reading(WithPiece(r.groups, text), []);
    PieceRead(r.groups, text);
    PieceKeeps(r.groups, text);
    Joined(GroupsRead(r.groups), TextRead(st, r.signs), [st.quote.value], Written(text));
  }

  lemma QuotedStep(st: State, r: Reading, c: char) returns (r1: Reading)
    requires Reads(st, r) && st.quote.Some?
    ensures Reads(Next(st, c), r1) && ReadText(Next(st, c), r1) == ReadText(st, r) + [c]
  {
    if st.escaped || (c != '\\' && c != st.quote.value) {
      r1 := SignStep(st, r, c);
    } else if c == '\\' {
      r1 := r;
      assert TextRead(Next(st, c), r.signs) == TextRead(st, r.signs) + [c];
    } else {
      r1 := QuoteStep(st, r);
    }
  }

  lemma LoneStays(st: State, c: char)
    requires st.quote.None? && st.stack != [] && Bracket(Top(st.stack)) && Fits(Top(st.stack), Lone(c))
    ensures Next(st, c) == st
  {
  }

  lemma LoneStep(st: State, r: Reading, c: char) returns (r1: Reading)
    requires Reads(st, r) && st.quote.None? && Fits(Top(st.stack), Lone(c))
    ensures Next(st, c) == st && Reads(st, r1) && ReadText(st, r1) == ReadText(st, r) + [c]
  {
    assert GroupFits(r.groups[|r.groups| - 1]);
    LoneStays(st, c);
    PieceRead(r.groups, Lone(c));
    PieceKeeps(r.groups, Lone(c));
    r1 := Reading(WithPiece(r.groups, Lone(c)), []);
    assert TextRead(st, r.signs) == TextRead(st, r1.signs) == "";
  }

  lemma OpenerStep(st: State, r: Reading, c: char) returns (r1: Reading)
    requires Reads(st, r) && st.quote.None? && Bracket(c)
    ensures Reads(Next(st, c), r1) && ReadText(Next(st, c), r1) == ReadText(st, r) + [c]
  {
    var groups := r.groups + [Begun(c, [])];
    assert groups[..|r.groups|] == r.groups;
    r1 := Reading(groups, []);
  }

  lemma CloserStep(st: State, r: Reading, c: char) returns (r1: Reading)
    requires Reads(st, r) && st.quote.None? && |st.stack| > 1 && c == Partner(Top(st.stack))
    ensures Reads(Next(st, c), r1) && ReadText(Next(st, c), r1) == ReadText(st, r) + [c]
  {
    var n := |r.groups| - 1;
    var last, outer := r.groups[n], r.groups[..n];
    var group := Group(last.opener, last.pieces);
    assert GroupFits(last) && GroupFits(outer[n - 1]);
    PieceRead(outer, group);
    PieceKeeps(outer, group);
    r1 := Reading(WithPiece(outer, group), []);
    Wrapped(GroupsRead(outer), [last.opener], AllWritten(last.pieces), [c]);
    Joined([last.opener], AllWritten(last.pieces), [c], AllWritten(last.pieces) + [c]);
  }

  lemma OpenStep(st: State, r: Reading, c: char) returns (r1: Reading)
    requires Reads(st, r) && st.quote.None? && Next(st, c).stack != []
    ensures Reads(Next(st, c), r1) && ReadText(Next(st, c), r1) == ReadText(st, r) + [c]
  {
    assert GroupFits(r.groups[|r.groups| - 1]);
    if Mark(c) {
      r1 := r;
    } else if Bracket(c) {
      r1 := OpenerStep(st, r, c);
    } else if c == Partner(Top(st.stack)) {
      r1 := CloserStep(st, r, c);
    } else {
      r1 := LoneStep(st, r, c);
    }
  }

  predicate IsGroup(text: string, opener: char, inside: seq<Piece>) {
    Bracket(opener) && AllFit(opener, inside) && text == Written(Group(opener, inside))
  }

  lemma LastStep(st: State, r: Reading, c: char)
    requires Reads(st, r) && Next(st, c).stack == []
    ensures IsGroup(ReadText(st, r) + [c], r.groups[0].opener, r.groups[0].pieces)
  {
    var group := r.groups[0];
    assert GroupFits(group) && c == Partner(group.opener);
    assert r.groups[..0] == [] && GroupsRead(r.groups) == "" + [group.opener] + AllWritten(group.pieces);
    assert ReadText(st, r) == [group.opener] + AllWritten(group.pieces);
  }

  lemma {:induction false} ClosedIsGroup(st: State, r: Reading, text: string) returns (opener: char, inside: seq<Piece>)
    requires Reads(st, r) && Closing(st, text) == Some(|text|)
    ensures IsGroup(ReadText(st, r) + text, opener, inside)
    decreases |text|
  {
    var c, rest := text[0], text[1..];
    assert text == [c] + rest;
    if Next(st, c).stack == [] {
      LastStep(st, r, c);
      assert text == [c];
      opener, inside := r.groups[0].opener, r.groups[0].pieces;
    } else {
      var r1 := r;
      if st.quote.Some? {
        r1 := QuotedStep(st, r, c);
      } else {
        r1 := OpenStep(st, r, c);
      }
      opener, inside := ClosedIsGroup(Next(st, c), r1, rest);
      Joined(ReadText(st, r), [c], rest, text);
    }
  }

  /** A text opens with a bracket that first closes at its very end exactly when it is a group. */
  lemma ClosesIff(text: string)
    ensures ClosesAtEnd(text) <==> exists opener, inside :: IsGroup(text, opener, inside)
  {
    if ClosesAtEnd(text) {
      var r := Reading([Begun(text[0], [])], []);
      var opener, inside := ClosedIsGroup(Begin(text[0]), r, text[1..]);
      assert r.groups[..0] == [];
      assert GroupsRead(r.groups) == [text[0]];
      assert ReadText(Begin(text[0]), r) + text[1..] == text;
    }
    if opener, inside :| IsGroup(text, opener, inside) {
      GroupCloses(opener, inside);
    }
  }

  /** The text is the group `r` with no opener before it. */
  predicate Holds(text: string, before: string, r: string, after: string, opener: char, inside: seq<Piece>) {
    && text == before + r + after && IsGroup(r, opener, inside)
    && forall k :: 0 <= k < |before| ==> !Bracket(before[k])
  }

  /** The scanner cuts out exactly the group that begins with the first opening bracket, and nothing when that bracket
      begins none. */
  lemma FragmentIsGroup(text: string, r: string)
    ensures Fragment(text) == Some(r)
            <==> exists before, after, opener, inside :: Holds(text, before, r, after, opener, inside)
  {
    FragmentIff(text, r);
    ClosesIff(r);
    if p, s :| Splits(text, p, r, s) {
      var opener, inside :| IsGroup(r, opener, inside);
      assert Holds(text, p, r, s, opener, inside);
    }
    if p, s, opener, inside :| Holds(text, p, r, s, opener, inside) {
      assert Splits(text, p, r, s);
    }
  }
}
