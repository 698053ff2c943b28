/** parseOrderBy: the order_by parameter of a listing, brought into a canonical form. */
module OrderBy {
  import opened Wrappers
  import opened Text

  // ----- Splitting text

  /** The pieces between commas; there is always at least one. */
  function SplitAtCommas(s: string): (pieces: seq<string>)
    ensures |pieces| >= 1
  {
    if s == "" then [""]
    else
      var rest := SplitAtCommas(s[1..]);
      if s[0] == ',' then [""] + rest else [[s[0]] + rest[0]] + rest[1..]
  }

  /** The pieces with commas between them. */
  function WithCommas(pieces: seq<string>): string
    requires |pieces| >= 1
  {
    if |pieces| == 1 then pieces[0] else pieces[0] + "," + WithCommas(pieces[1..])
  }

  /** Put back together, the pieces are the text; no piece has a comma. */
  lemma {:induction false} SplitExactly(s: string)
    ensures WithCommas(SplitAtCommas(s)) == s
    ensures forall i | 0 <= i < |SplitAtCommas(s)| :: ',' !in SplitAtCommas(s)[i]
  {
    if s != "" {
      var rest := SplitAtCommas(s[1..]);
      SplitExactly(s[1..]);
      if s[0] == ',' {
        assert ([""] + rest)[1..] == rest;
      } else {
        assert ([[s[0]] + rest[0]] + rest[1..])[1..] == rest[1..];
      }
    }
  }

  function TrimLeft(s: string): string {
    if s != "" && IsSpace(s[0]) then TrimLeft(s[1..]) else s
  }

  function TrimRight(s: string): string {
    if s != "" && IsSpace(s[|s| - 1]) then TrimRight(s[..|s| - 1]) else s
  }

  function TrimSpace(s: string): string {
    TrimRight(TrimLeft(s))
  }

  /** Trimming leaves nothing of exactly the texts that are all white space. */
  lemma {:induction false} BlankExactly(s: string)
    ensures TrimSpace(s) == "" <==> Blank(s)
  {
    var cut := TrimLeftCut(s);
    if cut < |s| {
      TrimRightKeeps(s[cut..]);
      assert s[cut] in s;
    } else {
      forall c | c in s
        ensures IsSpace(c)
      {
        var i :| 0 <= i < |s| && s[i] == c;
      }
    }
  }

  /** What is cut off at the front is white space, and what is left does not begin with it. */
  lemma {:induction false} TrimLeftCut(s: string) returns (cut: nat)
    ensures cut <= |s| && TrimLeft(s) == s[cut..]
    ensures forall i | 0 <= i < cut :: IsSpace(s[i])
    ensures cut < |s| ==> !IsSpace(s[cut])
  {
    cut := 0;
    if s != "" && IsSpace(s[0]) {
      var rest := s[1..];
      var k := TrimLeftCut(rest);
      cut := k + 1;
      assert rest[k..] == s[cut..];
      forall i | 0 <= i < cut
        ensures IsSpace(s[i])
      {
        if i > 0 {
          assert IsSpace(rest[i - 1]);
        }
      }
    }
  }

  lemma {:induction false} TrimRightKeeps(s: string)
    requires s != "" && !IsSpace(s[0])
    ensures TrimRight(s) != ""
  {
    if IsSpace(s[|s| - 1]) {
      TrimRightKeeps(s[..|s| - 1]);
    }
  }

  /** The maximal runs of characters that are not white space. */
  function Words(s: string): (words: seq<string>)
    ensures s != "" && !IsSpace(s[0]) ==> |words| >= 1
  {
    if s == "" then []
    else if IsSpace(s[0]) then Words(s[1..])
    else if |s| == 1 || IsSpace(s[1]) then [[s[0]]] + Words(s[1..])
    else
      var rest := Words(s[1..]);
      [[s[0]] + rest[0]] + rest[1..]
  }

  function Join(parts: seq<string>): string {
    if |parts| == 0 then ""
    else if |parts| == 1 then parts[0]
    else parts[0] + ", " + Join(parts[1..])
  }

  /** Upper case, as far as the two directions can tell: U+017F is the one other letter that becomes S. */
  function Upper(s: string): string {
    seq(|s|, i requires 0 <= i < |s| =>
      if 'a' <= s[i] <= 'z' then s[i] - 'a' + 'A' else if s[i] == '\U{17F}' then 'S' else s[i])
  }

  // ----- Terms

  datatype Term = Term(field: string, direction: string)

  predicate IsSupported(field: string) {
    field == "priority" || field == "display_name" || field == "create_time"
  }

  predicate IsDirection(direction: string) {
    direction == "ASC" || direction == "DESC"
  }

  predicate IsTerm(t: Term) {
    IsSupported(t.field) && IsDirection(t.direction)
  }

  function Shown(t: Term): string {
    t.field + " " + t.direction
  }

  /** The term of one piece; None for a blank piece. */
  function TermOf(piece: string): Result<Option<Term>, ()> {
    var words := Words(TrimSpace(piece));
    if |words| == 0 then Ok(None)
    else if !IsSupported(words[0]) then Err(())
    else if |words| == 1 then Ok(Some(Term(words[0], "ASC")))
    else if !IsDirection(Upper(words[1])) || |words| > 2 then Err(())
    else Ok(Some(Term(words[0], Upper(words[1]))))
  }

  function Terms(pieces: seq<string>): Result<seq<Term>, ()> {
    if pieces == [] then Ok([]) else Extended(Terms(pieces[..|pieces| - 1]), TermOf(pieces[|pieces| - 1]))
  }

  function Extended(terms: Result<seq<Term>, ()>, term: Result<Option<Term>, ()>): Result<seq<Term>, ()> {
    match (terms, term)
    case (Ok(ts), Ok(None)) => Ok(ts)
    case (Ok(ts), Ok(Some(t))) => Ok(ts + [t])
    case _ => Err(())
  }

  /** The terms of both, in order. */
  function Both(a: Result<seq<Term>, ()>, b: Result<seq<Term>, ()>): Result<seq<Term>, ()> {
    if a.Err? || b.Err? then Err(()) else Ok(a.value + b.value)
  }

  lemma ExtendedBoth(a: Result<seq<Term>, ()>, b: Result<seq<Term>, ()>, term: Result<Option<Term>, ()>)
    ensures Extended(Both(a, b), term) == Both(a, Extended(b, term))
  {
    if a.Ok? && b.Ok? && term.Ok? && term.value.Some? {
      var t := term.value.value;
      assert a.value + b.value + [t] == a.value + (b.value + [t]);
    }
  }

  /** The terms of a list of pieces are those of its parts, in order. */
  lemma {:induction false} TermsInOrder(a: seq<string>, b: seq<string>)
    ensures Terms(a + b) == Both(Terms(a), Terms(b))
  {
    if b == [] {
      assert a + b == a;
      NoMore(Terms(a));
    } else {
      var init, last := b[..|b| - 1], b[|b| - 1];
      TermsInOrder(a, init);
      TermsOneMore(a, init, last);
      LastPiece(a, b, init, last);
    }
  }

  lemma LastPiece(a: seq<string>, b: seq<string>, init: seq<string>, last: string)
    requires b != [] && init == b[..|b| - 1] && last == b[|b| - 1]
    ensures a + b == a + init + [last] && b == init + [last]
  {
  }

  lemma {:induction false} TermsOneMore(a: seq<string>, init: seq<string>, last: string)
    requires Terms(a + init) == Both(Terms(a), Terms(init))
    ensures Terms(a + init + [last]) == Both(Terms(a), Terms(init + [last]))
  {
    var term := LastTerm(a + init, init, last);
    ExtendedBoth(Terms(a), Terms(init), term);
  }

  /** What the last piece adds does not depend on the pieces before. */
  lemma {:induction false} LastTerm(x: seq<string>, y: seq<string>, last: string)
    returns (term: Result<Option<Term>, ()>)
    ensures Terms(x + [last]) == Extended(Terms(x), term) && Terms(y + [last]) == Extended(Terms(y), term)
  {
    term := TermOf(last);
    var xs, ys := x + [last], y + [last];
    assert xs[..|xs| - 1] == x && xs[|xs| - 1] == last;
    assert ys[..|ys| - 1] == y && ys[|ys| - 1] == last;
  }

  lemma NoMore(terms: Result<seq<Term>, ()>)
    ensures Both(terms, Ok([])) == terms
  {
    if terms.Ok? {
      assert terms.value + [] == terms.value;
    } else {
      assert terms.error == ();
    }
  }

  function ShownAll(terms: seq<Term>): seq<string> {
    seq(|terms|, i requires 0 <= i < |terms| => Shown(terms[i]))
  }

  /** Each term is shown behind the ones before, as a field, a space and a direction. */
  lemma {:induction false} ShownInOrder(terms: seq<Term>, t: Term)
    ensures Join(ShownAll([t])) == t.field + " " + t.direction
    ensures terms != [] ==> Join(ShownAll(terms + [t])) == Join(ShownAll(terms)) + ", " + Join(ShownAll([t]))
  {
    if terms != [] {
      JoinOneMore(ShownAll(terms), Shown(t));
      assert ShownAll(terms + [t]) == ShownAll(terms) + [Shown(t)];
    }
  }

  lemma {:induction false} JoinOneMore(parts: seq<string>, part: string)
    requires parts != []
    ensures Join(parts + [part]) == Join(parts) + ", " + part
  {
    if |parts| > 1 {
      JoinOneMore(parts[1..], part);
      assert (parts + [part])[1..] == parts[1..] + [part];
    } else {
      assert (parts + [part])[1..] == [part];
    }
  }

  const DEFAULT_ORDER_BY := "policy_type ASC, priority ASC, id ASC"

  /** The text that the terms of the parameter are brought into. */
  function Canonical(orderBy: string): Result<string, ()> {
    if orderBy == "" then Ok(DEFAULT_ORDER_BY)
    else match Terms(SplitAtCommas(orderBy))
      case Err(_) => Err(())
      case Ok(terms) => if terms == [] then Ok(DEFAULT_ORDER_BY) else Ok(Join(ShownAll(terms)))
  }

  method ParseOrderBy(orderBy: string) returns (r: Result<string, ()>)
    ensures r == Canonical(orderBy)
  {
    if orderBy == "" {
      return Ok(DEFAULT_ORDER_BY);
    }
    var parts := SplitAtCommas(orderBy);
    var gormParts: seq<string> := [];
    ghost var terms: seq<Term> := [];
    for i := 0 to |parts|
      invariant Terms(parts[..i]) == Ok(terms)
      invariant gormParts == ShownAll(terms)
    {
      assert parts[..i + 1][..i] == parts[..i];
      var term := ParsePart(parts[i]);
      if term.Err? {
        FailedPart(parts, i);
        return Err(());
      }
      if term.value.Some? {
        assert ShownAll(terms + [term.value.value]) == ShownAll(terms) + [Shown(term.value.value)];
        terms := terms + [term.value.value];
        gormParts := gormParts + [term.value.value.field + " " + term.value.value.direction];
      }
    }
    assert parts[..|parts|] == parts;
    if |gormParts| == 0 {
      return Ok(DEFAULT_ORDER_BY);
    }
    r := Ok(Join(gormParts));
  }

  /** One round of the loop, check by check. */
  method ParsePart(piece: string) returns (r: Result<Option<Term>, ()>)
    ensures r == TermOf(piece)
  {
    var part := TrimSpace(piece);
    if part == "" {
      return Ok(None);
    }
    var tokens := Words(part);
    if |tokens| == 0 {
      return Ok(None);
    }
    var field, direction := tokens[0], "ASC";
    if !IsSupported(field) {
      return Err(());
    }
    if |tokens| > 1 {
      direction := Upper(tokens[1]);
      if !IsDirection(direction) {
        return Err(());
      }
    }
    if |tokens| > 2 {
      return Err(());
    }
    r := Ok(Some(Term(field, direction)));
  }

  lemma {:induction false} FailedPart(parts: seq<string>, i: nat)
    requires i < |parts| && TermOf(parts[i]).Err?
    ensures Terms(parts).Err?
    decreases |parts|
  {
    if i < |parts| - 1 {
      FailedPart(parts[..|parts| - 1], i);
    }
  }

  // ----- Canonical form

  /** Whatever is parsed contains only supported fields and the two directions. */
  lemma {:induction false} TermsAreTerms(pieces: seq<string>)
    requires Terms(pieces).Ok?
    ensures AreTerms(Terms(pieces).value)
  {
    if pieces != [] {
      TermsAreTerms(pieces[..|pieces| - 1]);
    }
  }

  lemma {:induction false} SplitFirst(a: string, rest: string)
    requires ',' !in a
    ensures SplitAtCommas(a + "," + rest) == [a] + SplitAtCommas(rest)
  {
    if a == "" {
      assert (a + "," + rest)[1..] == rest;
    } else {
      SplitFirst(a[1..], rest);
      assert (a + "," + rest)[1..] == a[1..] + "," + rest;
      assert a == [a[0]] + a[1..];
    }
  }

  lemma {:induction false} SplitNothing(a: string)
    requires ',' !in a
    ensures SplitAtCommas(a) == [a]
  {
    if a != "" {
      SplitNothing(a[1..]);
      assert a == [a[0]] + a[1..];
    }
  }

  lemma {:induction false} WordFirst(a: string, rest: string)
    requires a != "" && forall c | c in a :: !IsSpace(c)
    requires rest == "" || IsSpace(rest[0])
    ensures Words(a + rest) == [a] + Words(rest)
  {
    var all := a + rest;
    assert all[0] == a[0] && a[0] in a;
    assert all[1..] == a[1..] + rest;
    if |a| > 1 {
      assert all[1] == a[1] && a[1] in a;
      WordFirst(a[1..], rest);
      assert a == [a[0]] + a[1..];
    } else {
      assert all[1..] == rest && a == [a[0]];
      assert rest != "" ==> all[1] == rest[0];
    }
  }

  predicate Plain(word: string) {
    word != "" && forall c | c in word :: !IsSpace(c) && c != ','
  }

  lemma PlainWords()
    ensures forall field | IsSupported(field) :: Plain(field)
    ensures forall d | IsDirection(d) :: Plain(d) && Upper(d) == d
  {
    assert Upper("ASC") == "ASC" && Upper("DESC") == "DESC";
  }

  lemma TrimShown(t: Term)
    requires Plain(t.field) && Plain(t.direction)
    ensures TrimSpace(Shown(t)) == Shown(t) && TrimSpace(" " + Shown(t)) == Shown(t)
  {
    var s := Shown(t);
    assert s[0] == t.field[0] && t.field[0] in t.field;
    assert s[|s| - 1] == t.direction[|t.direction| - 1] && t.direction[|t.direction| - 1] in t.direction;
    assert (" " + s)[1..] == s;
  }

  lemma WordsShown(t: Term)
    requires Plain(t.field) && Plain(t.direction)
    ensures Words(Shown(t)) == [t.field, t.direction]
  {
    var tail := " " + t.direction;
    assert Shown(t) == t.field + tail;
    WordFirst(t.field, tail);
    assert tail[1..] == t.direction;
    WordFirst(t.direction, "");
    assert t.direction + "" == t.direction;
  }

  /** A canonical term, with or without a blank in front, is read back. */
  lemma TermOfShown(t: Term, piece: string)
    requires IsTerm(t) && (piece == Shown(t) || piece == " " + Shown(t))
    ensures TermOf(piece) == Ok(Some(t))
  {
    PlainWords();
    TrimShown(t);
    WordsShown(t);
  }

  /** The pieces of the joined terms: the first as shown, the others behind a blank. */
  function Pieces(terms: seq<Term>): seq<string> {
    seq(|terms|, i requires 0 <= i < |terms| => if i == 0 then Shown(terms[0]) else " " + Shown(terms[i]))
  }

  predicate AreTerms(terms: seq<Term>) {
    forall i | 0 <= i < |terms| :: IsTerm(terms[i])
  }

  lemma {:induction false} SplitJoined(terms: seq<Term>, blank: string)
    requires terms != [] && (blank == "" || blank == " ") && AreTerms(terms)
    ensures SplitAtCommas(blank + Join(ShownAll(terms))) == [blank + Shown(terms[0])] + Pieces(terms)[1..]
  {
    NoComma(terms[0], blank);
    if |terms| == 1 {
      SplitNothing(blank + Shown(terms[0]));
    } else {
      SplitJoined(terms[1..], " ");
      JoinFirst(terms, blank);
      SplitFirst(blank + Shown(terms[0]), " " + Join(ShownAll(terms[1..])));
      PiecesFirst(terms);
    }
  }

  lemma NoComma(t: Term, blank: string)
    requires IsTerm(t) && (blank == "" || blank == " ")
    ensures ',' !in blank + Shown(t)
  {
    PlainWords();
  }

  lemma JoinFirst(terms: seq<Term>, blank: string)
    requires |terms| > 1
    ensures blank + Join(ShownAll(terms)) == (blank + Shown(terms[0])) + "," + (" " + Join(ShownAll(terms[1..])))
  {
    assert ShownAll(terms)[1..] == ShownAll(terms[1..]);
  }

  lemma PiecesFirst(terms: seq<Term>)
    requires |terms| > 1
    ensures Pieces(terms)[1..] == [" " + Shown(terms[1])] + Pieces(terms[1..])[1..]
  {
  }

  lemma TermsSnoc(pieces: seq<string>, init: seq<Term>, t: Term)
    requires pieces != [] && Terms(pieces[..|pieces| - 1]) == Ok(init) && TermOf(pieces[|pieces| - 1]) == Ok(Some(t))
    ensures Terms(pieces) == Ok(init + [t])
  {
  }

  predicate Reads(piece: string, t: Term) {
    TermOf(piece) == Ok(Some(t))
  }

  lemma {:induction false} TermsOfPieces(terms: seq<Term>, pieces: seq<string>)
    requires |pieces| == |terms| && forall i | 0 <= i < |terms| :: Reads(pieces[i], terms[i])
    ensures Terms(pieces) == Ok(terms)
  {
    if terms != [] {
      var last := |terms| - 1;
      TermsOfPieces(terms[..last], pieces[..last]);
      assert Reads(pieces[last], terms[last]);
      TermsSnoc(pieces, terms[..last], terms[last]);
      assert terms == terms[..last] + [terms[last]];
    }
  }

  /** Every list of terms is read back from its canonical text. */
  lemma RoundTrip(terms: seq<Term>)
    requires terms != [] && AreTerms(terms)
    ensures Terms(SplitAtCommas(Join(ShownAll(terms)))) == Ok(terms)
    ensures Join(ShownAll(terms)) != ""
  {
    SplitJoined(terms, "");
    var text := Join(ShownAll(terms));
    assert "" + text == text && "" + Shown(terms[0]) == Shown(terms[0]);
    assert [Shown(terms[0])] + Pieces(terms)[1..] == Pieces(terms);
    forall i | 0 <= i < |terms|
      ensures Reads(Pieces(terms)[i], terms[i])
    {
      TermOfShown(terms[i], Pieces(terms)[i]);
    }
    TermsOfPieces(terms, Pieces(terms));
    assert text[0] == Shown(terms[0])[0];
  }

  /**
   Parsing is idempotent: what a parameter with at least one term is brought into is itself brought
   into the same text, and consists of supported fields with a direction.
   */
  lemma CanonicalIsFixed(orderBy: string)
    requires orderBy != "" && Terms(SplitAtCommas(orderBy)).Ok? && Terms(SplitAtCommas(orderBy)).value != []
    ensures var terms := Terms(SplitAtCommas(orderBy)).value;
      && AreTerms(terms)
      && Canonical(orderBy) == Ok(Join(ShownAll(terms)))
      && Canonical(Canonical(orderBy).value) == Canonical(orderBy)
  {
    TermsAreTerms(SplitAtCommas(orderBy));
    RoundTrip(Terms(SplitAtCommas(orderBy)).value);
  }

  // ----- What a parameter may look like

  lemma {:induction false} WordsOfBlank(s: string)
    requires Blank(s)
    ensures Words(s) == []
  {
    if s != "" {
      assert s[0] in s && forall c | c in s[1..] :: c in s;
      WordsOfBlank(s[1..]);
    }
  }

  /** White space in front does not matter. */
  lemma {:induction false} WordsBehindBlank(blank: string, s: string)
    requires Blank(blank)
    ensures Words(blank + s) == Words(s)
  {
    if blank == "" {
      assert blank + s == s;
    } else {
      assert blank[0] in blank && forall c | c in blank[1..] :: c in blank;
      assert (blank + s)[1..] == blank[1..] + s;
      WordsBehindBlank(blank[1..], s);
    }
  }

  lemma {:induction false} WordsOfTrimmedLeft(s: string)
    ensures Words(TrimLeft(s)) == Words(s)
  {
    if s != "" && IsSpace(s[0]) {
      WordsOfTrimmedLeft(s[1..]);
    }
  }

  /** Neither does white space at the end. */
  lemma {:induction false} WordsBeforeSpace(s: string, c: char)
    requires IsSpace(c)
    ensures Words(s + [c]) == Words(s)
  {
    var all := s + [c];
    if s == "" {
      assert all[1..] == "";
    } else {
      assert all[1..] == s[1..] + [c];
      WordsBeforeSpace(s[1..], c);
      if |s| == 1 {
        assert s[1..] == "" && all[1] == c;
      } else {
        assert all[1] == s[1];
      }
    }
  }

  lemma {:induction false} WordsOfTrimmedRight(s: string)
    ensures Words(TrimRight(s)) == Words(s)
  {
    if s != "" && IsSpace(s[|s| - 1]) {
      WordsOfTrimmedRight(s[..|s| - 1]);
      assert s == s[..|s| - 1] + [s[|s| - 1]];
      WordsBeforeSpace(s[..|s| - 1], s[|s| - 1]);
    }
  }

  lemma WordsOfTrimmed(s: string)
    ensures Words(TrimSpace(s)) == Words(s)
  {
    WordsOfTrimmedLeft(s);
    WordsOfTrimmedRight(TrimLeft(s));
  }

  /** A word: text without white space. */
  predicate IsWord(word: string) {
    word != "" && forall c | c in word :: !IsSpace(c)
  }

  predicate IsGap(gap: string) {
    gap != "" && Blank(gap)
  }

  /** A word and what follows it, behind white space. */
  lemma WordThenRest(blank: string, word: string, rest: string)
    requires Blank(blank) && IsWord(word) && (rest == "" || IsSpace(rest[0]))
    ensures Words(blank + word + rest) == [word] + Words(rest)
  {
    assert blank + word + rest == blank + (word + rest);
    WordsBehindBlank(blank, word + rest);
    WordFirst(word, rest);
  }

  /** A blank piece is skipped. */
  lemma BlankPiece(piece: string)
    requires Blank(piece)
    ensures TermOf(piece) == Ok(None)
  {
    WordsOfTrimmed(piece);
    WordsOfBlank(piece);
  }

  /** A lone field is ascending; a field that cannot be ordered by is an error. */
  lemma LoneField(before: string, field: string, after: string)
    requires Blank(before) && IsWord(field) && Blank(after)
    ensures TermOf(before + field + after) ==
      if field in ["priority", "display_name", "create_time"] then Ok(Some(Term(field, "ASC"))) else Err(())
  {
    BlankFront(after);
    WordsOfTrimmed(before + field + after);
    WordThenRest(before, field, after);
    WordsOfBlank(after);
  }

  lemma BlankFront(s: string)
    requires Blank(s)
    ensures s == "" || IsSpace(s[0])
  {
    if s != "" {
      assert s[0] in s;
    }
  }

  /** Text that spells ASC or DESC, in small or capital letters. */
  predicate Spells(s: string, capitals: string) {
    |s| == |capitals| && forall i | 0 <= i < |s| :: Capital(s[i]) == capitals[i]
  }

  function Capital(c: char): char {
    if c in "acdes" then c - 'a' + 'A' else if c == '\U{17F}' then 'S' else c
  }

  lemma DirectionExactly(s: string)
    ensures Upper(s) == "ASC" <==> Spells(s, "ASC")
    ensures Upper(s) == "DESC" <==> Spells(s, "DESC")
  {
    assert |Upper(s)| == |s|;
    assert forall i | 0 <= i < |s| ::
        Upper(s)[i] in "ACDES" || Capital(s[i]) in "ACDES" ==> Upper(s)[i] == Capital(s[i]);
  }

  /** A field with a direction, in whatever case; more words are an error. */
  lemma FieldAndDirection(before: string, field: string, gap: string, direction: string, after: string)
    requires Blank(before) && IsWord(field) && IsGap(gap) && IsWord(direction) && (after == "" || IsSpace(after[0]))
    ensures TermOf(before + field + (gap + direction + after)) ==
      if field !in ["priority", "display_name", "create_time"] || !Blank(after) then Err(())
      else if Spells(direction, "ASC") then Ok(Some(Term(field, "ASC")))
      else if Spells(direction, "DESC") then Ok(Some(Term(field, "DESC")))
      else Err(())
  {
    var rest := gap + direction + after;
    BlankFront(gap);
    WordsOfTrimmed(before + field + rest);
    WordThenRest(before, field, rest);
    WordThenRest(gap, direction, after);
    DirectionExactly(direction);
    if Blank(after) {
      WordsOfBlank(after);
    } else {
      SomeWord(after);
    }
  }

  lemma {:induction false} SomeWord(s: string)
    requires !Blank(s)
    ensures Words(s) != []
  {
    if IsSpace(s[0]) {
      var c :| c in s && !IsSpace(c);
      assert s == [s[0]] + s[1..];
      assert c in s[1..];
      SomeWord(s[1..]);
    }
  }

  /** A parameter is an error exactly when one of its pieces is. */
  lemma {:induction false} TermsFailExactly(pieces: seq<string>)
    ensures Terms(pieces).Err? <==> exists i | 0 <= i < |pieces| :: TermOf(pieces[i]).Err?
  {
    if pieces != [] {
      var init, last := pieces[..|pieces| - 1], pieces[|pieces| - 1];
      TermsFailExactly(init);
      assert pieces == init + [last];
    }
  }

  /** Without any term the default order is used. */
  lemma DefaultOrder(orderBy: string)
    requires forall i | 0 <= i < |SplitAtCommas(orderBy)| :: Blank(SplitAtCommas(orderBy)[i])
    ensures Canonical(orderBy) == Ok("policy_type ASC, priority ASC, id ASC")
  {
    NoTerms(SplitAtCommas(orderBy));
  }

  lemma {:induction false} NoTerms(pieces: seq<string>)
    requires forall i | 0 <= i < |pieces| :: Blank(pieces[i])
    ensures Terms(pieces) == Ok([])
  {
    if pieces != [] {
      NoTerms(pieces[..|pieces| - 1]);
      BlankPiece(pieces[|pieces| - 1]);
    }
  }
}
