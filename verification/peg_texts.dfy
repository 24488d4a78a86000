/** Which grammar texts compile, and to which rules: exactly the texts of layouts, to exactly the
    printable rule lists. */
module PegTexts {
  import opened PegSyntax
  import opened PegGrammar
  import opened PegLayouts
  import opened PegRoundTrip
  import PegSemantics

  lemma ShowsJoined(text: string, pos: nat, a: string, b: string)
    requires Shows(text, pos, a) && Shows(text, pos + |a|, b)
    ensures Shows(text, pos, a + b)
  {
    assert text[pos..pos + |a + b|] == text[pos..pos + |a|] + text[pos + |a|..pos + |a| + |b|];
  }

  lemma ShowsBetween(text: string, from: nat, to: nat)
    requires from <= to <= |text|
    ensures Shows(text, from, text[from..to])
  {
  }

  // ----- expressions

  lemma {:induction false} SkippedIsGap(text: string, pos: nat)
    requires pos <= |text|
    ensures IsGap(text[pos..SkipInline(text, pos)])
    decreases |text| - pos
  {
    if pos < |text| && IsInline(text[pos]) {
      SkippedIsGap(text, pos + 1);
      assert text[pos..SkipInline(text, pos)] == [text[pos]] + text[pos + 1..SkipInline(text, pos + 1)];
    } else {
    }
  }

  /** The term that was read, as it was written. */
  ghost predicate IsTermAt(t: Term, text: string, pos: nat, r: Reading<Expr>) {
    && r.Ok? && r.pos <= |text| && FitsTerm(t)
    && Shows(text, pos, TermText(t)) && pos + |TermText(t)| == r.pos && TermMeaning(t) == r.value
    && (t.Name? && r.pos < |text| ==> !IsIdentifierChar(text[r.pos]))
  }

  ghost predicate IsElementAt(e: Element, text: string, pos: nat, r: Reading<Expr>) {
    && r.Ok? && r.pos <= |text| && FitsElement(e) && e.gap == ""
    && Shows(text, pos, BareText(e)) && pos + |BareText(e)| == r.pos && ElementMeaning(e) == r.value
    && EndsHere(e, text, r.pos)
  }

  ghost predicate AreElementsAt(es: seq<Element>, gap: string, text: string, pos: nat, r: Reading<seq<Expr>>) {
    && r.Ok? && r.pos <= |text| && FitsElements(es) && IsGap(gap)
    && Shows(text, pos, ElementsText(es, 0, gap)) && pos + |ElementsText(es, 0, gap)| == r.pos
    && ElementMeanings(es, 0) == r.value
    && StopsSequence(text, r.pos)
  }

  ghost predicate AreAlternativesAt(alternatives: seq<Alternative>, text: string, pos: nat, r: Reading<seq<Expr>>) {
    && r.Ok? && r.pos <= |text| && FitsAlternatives(alternatives)
    && Shows(text, pos, AlternativesText(alternatives, 0)) && pos + |AlternativesText(alternatives, 0)| == r.pos
    && AlternativeMeanings(alternatives, 0) == r.value
    && StopsChoice(text, r.pos)
  }

  lemma {:induction false} TermFound(text: string, pos: nat) returns (t: Term)
    requires pos <= |text| && ReadTerm(text, pos).Ok?
    ensures IsTermAt(t, text, pos, ReadTerm(text, pos))
    decreases |text| - pos, 1
  {
    if CharAt(text, pos) == '(' {
      t := GroupFound(text, pos);
    } else {
      t := LeafFound(text, pos);
    }
  }

  lemma LeafFound(text: string, pos: nat) returns (t: Term)
    requires pos <= |text| && ReadTerm(text, pos).Ok? && CharAt(text, pos) != '('
    ensures IsTermAt(t, text, pos, ReadTerm(text, pos))
  {
    var c := CharAt(text, pos);
    if c == '\'' || c == '"' {
      t := LiteralFound(text, pos);
    } else if c == '[' {
      t := ClassFound(text, pos);
    } else if c == '.' {
      hide ReadChoice, IdentifierEnd, Find;
      t := AnyChar;
      assert text[pos..pos + 1] == ".";
    } else {
      t := NameFound(text, pos);
    }
  }

  lemma LiteralFound(text: string, pos: nat) returns (t: Term)
    requires pos <= |text| && ReadTerm(text, pos).Ok? && (CharAt(text, pos) == '\'' || CharAt(text, pos) == '"')
    ensures IsTermAt(t, text, pos, ReadTerm(text, pos))
  {
    hide ReadChoice, IdentifierEnd, Find, Shows;
    var end := Find(text, pos + 1, text[pos]);
    t := Quoted(text[pos], text[pos + 1..end]);
    QuotedFound(text, pos, end, text[pos]);
  }

  lemma ClassFound(text: string, pos: nat) returns (t: Term)
    requires pos <= |text| && ReadTerm(text, pos).Ok? && CharAt(text, pos) == '['
    ensures IsTermAt(t, text, pos, ReadTerm(text, pos))
  {
    hide ReadChoice, IdentifierEnd, Find, Shows;
    var end := Find(text, pos + 1, ']');
    t := Class(text[pos + 1..end]);
    QuotedFound(text, pos, end, ']');
  }

  lemma NameFound(text: string, pos: nat) returns (t: Term)
    requires pos <= |text| && ReadTerm(text, pos).Ok? && CharAt(text, pos) !in "('\"[."
    ensures IsTermAt(t, text, pos, ReadTerm(text, pos))
  {
    hide ReadChoice, IdentifierEnd, Find, Shows;
    var end := IdentifierEnd(text, pos);
    t := Name(text[pos..end]);
    ShowsBetween(text, pos, end);
  }

  lemma QuotedFound(text: string, pos: nat, end: nat, close: char)
    requires pos < end < |text| && text[end] == close && forall k :: pos + 1 <= k < end ==> text[k] != close
    ensures close !in text[pos + 1..end]
    ensures Shows(text, pos, [text[pos]] + text[pos + 1..end] + [close])
  {
    assert text[pos..end + 1] == [text[pos]] + text[pos + 1..end] + [close];
  }

  lemma {:induction false} GroupFound(text: string, pos: nat) returns (t: Term)
    requires pos <= |text| && ReadTerm(text, pos).Ok? && CharAt(text, pos) == '('
    ensures IsTermAt(t, text, pos, ReadTerm(text, pos))
    decreases |text| - pos, 0
  {
    hide ReadAlternatives, Find, IdentifierEnd, SkipInline, AlternativesText, AlternativeMeanings, FitsAlternatives;
    var r, inner := ReadTerm(text, pos), ReadChoice(text, pos + 1);
    var alternatives := AlternativesFound(text, pos + 1);
    NothingToSkip(text, inner.pos);
    t := Group(alternatives);
    var body := AlternativesText(alternatives, 0);
    ShowsBetween(text, pos, pos + 1);
    ShowsBetween(text, inner.pos, r.pos);
    assert text[pos..pos + 1] == "(" && text[inner.pos..r.pos] == ")";
    ShowsJoined(text, pos + 1, body, ")");
    ShowsJoined(text, pos, "(", body + ")");
  }

  lemma {:induction false} ElementFound(text: string, pos: nat) returns (e: Element)
    requires pos <= |text| && ReadPrefix(text, pos).Ok?
    ensures IsElementAt(e, text, pos, ReadPrefix(text, pos))
    decreases |text| - pos, 3
  {
    var c := CharAt(text, pos);
    if c == '&' || c == '!' {
      hide ReadSuffix, IsElementAt;
      var inner := ElementFound(text, pos + 1);
      e := inner.(prefixes := [c] + inner.prefixes);
      ElementPrefixed(c, inner, text, pos, ReadPrefix(text, pos + 1));
    } else {
      e := SuffixFound(text, pos);
    }
  }

  lemma ElementPrefixed(c: char, inner: Element, text: string, pos: nat, r: Reading<Expr>)
    requires (c == '&' || c == '!') && pos < |text| && text[pos] == c && IsElementAt(inner, text, pos + 1, r)
    ensures IsElementAt(inner.(prefixes := [c] + inner.prefixes), text, pos,
                        Ok(if c == '&' then AndPredicate(r.value) else NotPredicate(r.value), r.pos))
  {
    hide TermText, TermMeaning, FitsTerm, Suffixed;
    var e := inner.(prefixes := [c] + inner.prefixes);
    ShowsBetween(text, pos, pos + 1);
    assert text[pos..pos + 1] == [c];
    ShowsJoined(text, pos, [c], BareText(inner));
    assert BareText(e) == [c] + BareText(inner);
    assert e.prefixes[1..] == inner.prefixes;
  }

  lemma {:induction false} SuffixFound(text: string, pos: nat) returns (e: Element)
    requires pos <= |text| && ReadPrefix(text, pos).Ok? && CharAt(text, pos) != '&' && CharAt(text, pos) != '!'
    ensures IsElementAt(e, text, pos, ReadPrefix(text, pos))
    decreases |text| - pos, 2
  {
    hide ReadTerm, TermText, TermMeaning, FitsTerm;
    var r, term := ReadPrefix(text, pos), ReadTerm(text, pos);
    var t := TermFound(text, pos);
    e := Element("", "", t, text[term.pos..r.pos]);
    ShowsBetween(text, term.pos, r.pos);
    ShowsJoined(text, pos, TermText(t), e.suffix);
    assert BareText(e) == TermText(t) + e.suffix;
  }

  /** An element in front of others. */
  lemma {:induction false} ElementsShift(e: Element, es: seq<Element>, i: nat, gap: string)
    requires i <= |es|
    ensures ElementsText([e] + es, i + 1, gap) == ElementsText(es, i, gap)
    ensures ElementMeanings([e] + es, i + 1) == ElementMeanings(es, i)
    decreases |es| - i
  {
    hide BareText, ElementMeaning;
    if i == |es| {
    } else {
      ElementsShift(e, es, i + 1, gap);
      assert ([e] + es)[i + 1] == es[i];
    }
  }

  lemma ElementsPrepended(e: Element, es: seq<Element>, gap: string)
    ensures ElementsText([e] + es, 0, gap) == e.gap + (BareText(e) + ElementsText(es, 0, gap))
    ensures ElementMeanings([e] + es, 0) == [ElementMeaning(e)] + ElementMeanings(es, 0)
  {
    hide BareText, ElementMeaning;
    ElementsShift(e, es, 0, gap);
  }

  lemma ElementsApart(e: Element, es: seq<Element>, gap: string, text: string, pos: nat)
    requires pos <= |text| && EndsHere(e, text, pos) && FitsElement(e) && FitsElements(es)
    requires Shows(text, pos, ElementsText(es, 0, gap))
    ensures FitsElements([e] + es)
  {
    var all := [e] + es;
    assert forall i :: 0 < i < |all| ==> all[i] == es[i - 1];
    hide FitsTerm, FitsElement;
    if es != [] {
      assert Apart(e, es[0]) by {
        if es[0].gap == "" && es[0].prefixes == "" && es[0].term.Name? {
          NameFirst(es, gap);
          ShowsChar(text, pos, ElementsText(es, 0, gap), 0);
        }
      }
    }
    assert forall i :: 0 <= i < |all| - 1 ==> i > 0 ==> Apart(es[i - 1], es[i]);
  }

  lemma NameFirst(es: seq<Element>, gap: string)
    requires es != [] && FitsElement(es[0]) && es[0].gap == "" && es[0].prefixes == "" && es[0].term.Name?
    ensures var s := ElementsText(es, 0, gap); s != "" && IsIdentifierChar(s[0])
  {
    BareStarts(es[0]);
  }

  lemma {:induction false} ElementsFound(text: string, pos: nat) returns (es: seq<Element>, gap: string)
    requires pos <= |text| && ReadElements(text, pos).Ok?
    ensures AreElementsAt(es, gap, text, pos, ReadElements(text, pos))
    decreases |text| - pos, 4
  {
    var p := SkipInline(text, pos);
    hide ReadPrefix, SkipInline, AreElementsAt, IsElementAt;
    if p >= |text| || EndsSequence(text[p]) {
      es, gap := [], text[pos..p];
      NoElementsAt(text, pos);
    } else {
      var r := ReadPrefix(text, p);
      var e := ElementFound(text, p);
      var rest;
      rest, gap := ElementsFound(text, r.pos);
      es := [e.(gap := text[pos..p])] + rest;
      ElementsExtended(text, pos, e, rest, gap, r, ReadElements(text, r.pos));
    }
  }

  lemma NoElementsAt(text: string, pos: nat)
    requires pos <= |text| && var p := SkipInline(text, pos); p < |text| ==> EndsSequence(text[p])
    ensures var p := SkipInline(text, pos); AreElementsAt([], text[pos..p], text, pos, Ok([], p))
  {
    SkippedIsGap(text, pos);
    ShowsBetween(text, pos, SkipInline(text, pos));
  }

  lemma ElementsExtended(text: string, pos: nat, e: Element, rest: seq<Element>, gap: string, r: Reading<Expr>,
                         more: Reading<seq<Expr>>)
    requires pos <= |text| && IsElementAt(e, text, SkipInline(text, pos), r) && AreElementsAt(rest, gap, text, r.pos, more)
    ensures AreElementsAt([e.(gap := text[pos..SkipInline(text, pos)])] + rest, gap, text, pos, Ok([r.value] + more.value, more.pos))
  {
    var p := SkipInline(text, pos);
    var first := e.(gap := text[pos..p]);
    SkippedIsGap(text, pos);
    ShowsBetween(text, pos, p);
    ElementGap(e, text[pos..p]);
    hide SkipInline, BareText, ElementMeaning, FitsElement;
    ElementsPrepended(first, rest, gap);
    ElementsApart(first, rest, gap, text, r.pos);
    ShowsJoined(text, p, BareText(first), ElementsText(rest, 0, gap));
    ShowsJoined(text, pos, first.gap, BareText(first) + ElementsText(rest, 0, gap));
  }

  lemma ElementGap(e: Element, gap: string)
    requires FitsElement(e) && IsGap(gap)
    ensures var f := e.(gap := gap); FitsElement(f) && BareText(f) == BareText(e) && ElementMeaning(f) == ElementMeaning(e)
  {
  }

  lemma {:induction false} AlternativesShift(a: Alternative, alternatives: seq<Alternative>, i: nat)
    requires i <= |alternatives|
    ensures AlternativesText([a] + alternatives, i + 1) == AlternativesText(alternatives, i)
    ensures AlternativeMeanings([a] + alternatives, i + 1) == AlternativeMeanings(alternatives, i)
    decreases |alternatives| - i
  {
    hide AlternativeText, AlternativeMeaning;
    if i == |alternatives| {
    } else {
      AlternativesShift(a, alternatives, i + 1);
      assert ([a] + alternatives)[i + 1] == alternatives[i];
    }
  }

  lemma AlternativesPrepended(a: Alternative, alternatives: seq<Alternative>)
    ensures AlternativesText([a] + alternatives, 0) ==
            AlternativeText(a) + (if alternatives == [] then "" else "/" + AlternativesText(alternatives, 0))
    ensures AlternativeMeanings([a] + alternatives, 0) == [AlternativeMeaning(a)] + AlternativeMeanings(alternatives, 0)
    ensures FitsAlternative(a) && (alternatives == [] || FitsAlternatives(alternatives)) ==> FitsAlternatives([a] + alternatives)
  {
    hide AlternativeText, AlternativeMeaning, FitsAlternative;
    AlternativesShift(a, alternatives, 0);
  }

  lemma {:induction false} AlternativeFound(text: string, pos: nat) returns (a: Alternative)
    requires pos <= |text| && ReadSequence(text, pos).Ok?
    ensures var r := ReadSequence(text, pos);
      && FitsAlternative(a) && Shows(text, pos, AlternativeText(a)) && pos + |AlternativeText(a)| == r.pos
      && AlternativeMeaning(a) == r.value && StopsSequence(text, r.pos)
    decreases |text| - pos, 5
  {
    var es, gap := ElementsFound(text, pos);
    hide ReadElements, ElementsText, FitsElements;
    a := Alternative(es, gap);
    NoElementsMean();
  }

  lemma {:induction false} AlternativesFound(text: string, pos: nat) returns (alternatives: seq<Alternative>)
    requires pos <= |text| && ReadAlternatives(text, pos).Ok?
    ensures AreAlternativesAt(alternatives, text, pos, ReadAlternatives(text, pos))
    decreases |text| - pos, 6
  {
    var first := ReadSequence(text, pos);
    var a := AlternativeFound(text, pos);
    NothingToSkip(text, first.pos);
    hide ReadSequence, SkipInline, AlternativesText, AlternativeText, AlternativeMeaning, AlternativeMeanings, FitsAlternative,
         FitsAlternatives;
    if first.pos < |text| && text[first.pos] == '/' {
      var rest := AlternativesFound(text, first.pos + 1);
      alternatives := [a] + rest;
      AlternativesExtended(text, pos, a, rest, first.pos, ReadAlternatives(text, first.pos + 1));
    } else {
      alternatives := [a];
      AlternativesPrepended(a, []);
      NoneMean();
      assert [a] + [] == [a];
    }
  }

  lemma AlternativesExtended(text: string, pos: nat, a: Alternative, rest: seq<Alternative>, slash: nat, r: Reading<seq<Expr>>)
    requires slash < |text| && text[slash] == '/' && AreAlternativesAt(rest, text, slash + 1, r)
    requires FitsAlternative(a) && Shows(text, pos, AlternativeText(a)) && pos + |AlternativeText(a)| == slash
    ensures AreAlternativesAt([a] + rest, text, pos, Ok([AlternativeMeaning(a)] + r.value, r.pos))
  {
    NotEmpty(rest);
    hide AlternativesText, AlternativeText, AlternativeMeaning, AlternativeMeanings, FitsAlternative, FitsAlternatives, Shows;
    AlternativesPrepended(a, rest);
    SlashShown(text, pos, AlternativeText(a), AlternativesText(rest, 0));
  }

  lemma SlashShown(text: string, pos: nat, a: string, b: string)
    requires Shows(text, pos, a) && pos + |a| < |text| && text[pos + |a|] == '/' && Shows(text, pos + |a| + 1, b)
    ensures Shows(text, pos, a + ("/" + b))
  {
    ShowsBetween(text, pos + |a|, pos + |a| + 1);
    assert text[pos + |a|..pos + |a| + 1] == "/";
    ShowsJoined(text, pos + |a|, "/", b);
    ShowsJoined(text, pos, a, "/" + b);
  }

  lemma NotEmpty(alternatives: seq<Alternative>)
    requires FitsAlternatives(alternatives)
    ensures alternatives != []
  {
  }

  lemma NoneMean()
    ensures AlternativeMeanings([], 0) == []
  {
  }

  lemma NoElementsMean()
    ensures ElementMeanings([], 0) == []
  {
  }

  // ----- rules

  /** What a layout is while its first rules are still to come: it may have no rules, and
      anything may stand before the first one. */
  ghost predicate FitsTail(l: Layout) {
    && (forall i :: 0 <= i < |l.rules| ==> FitsRule(l.rules[i]) && (i > 0 ==> EndsRule(l.rules[i].before)))
    && FitsPieces(l.after, true) && (l.rules != [] ==> l.after == [] || EndsRule(l.after))
  }

  function Head(l: Layout): seq<Piece> {
    if l.rules == [] then l.after else l.rules[0].before
  }

  function WithPiece(p: Piece, l: Layout): Layout {
    if l.rules == [] then Layout([], [p] + l.after)
    else Layout([l.rules[0].(before := [p] + l.rules[0].before)] + l.rules[1..], l.after)
  }

  function WithRule(r: RuleLayout, l: Layout): Layout { Layout([r] + l.rules, l.after) }

  lemma {:induction false} PiecesShift(p: Piece, pieces: seq<Piece>, i: nat)
    requires i <= |pieces|
    ensures PiecesText([p] + pieces, i + 1) == PiecesText(pieces, i)
    decreases |pieces| - i
  {
    if i == |pieces| {
    } else {
      PiecesShift(p, pieces, i + 1);
      assert ([p] + pieces)[i + 1] == pieces[i];
    }
  }

  /** The rules from the i-th on are the same in two layouts whose rules agree from there. */
  lemma {:induction false} RulesAgree(a: Layout, b: Layout, i: nat, j: nat)
    requires a.after == b.after && i <= |a.rules| && j <= |b.rules| && a.rules[i..] == b.rules[j..]
    ensures RulesText(a, i) == RulesText(b, j) && RuleMeanings(a, i) == RuleMeanings(b, j)
    decreases |a.rules| - i
  {
    assert |a.rules| - i == |a.rules[i..]| == |b.rules| - j;
    hide RuleText, RuleMeaning, PiecesText;
    if i == |a.rules| {
    } else {
      assert a.rules[i] == a.rules[i..][0] == b.rules[j];
      assert a.rules[i + 1..] == a.rules[i..][1..] == b.rules[j + 1..];
      RulesAgree(a, b, i + 1, j + 1);
    }
  }

  lemma PieceInFront(p: Piece, l: Layout)
    ensures Text(WithPiece(p, l)) == PieceText(p) + Text(l) && Meaning(WithPiece(p, l)) == Meaning(l)
  {
    var m := WithPiece(p, l);
    PiecesShift(p, Head(l), 0);
    assert PiecesText([p] + Head(l), 0) == PieceText(p) + PiecesText(Head(l), 0);
    if l.rules == [] {
    } else {
      assert m.rules[1..] == l.rules[1..];
      RulesAgree(m, l, 1, 1);
      var r := l.rules[0];
      hide PiecesText, PieceText, AlternativesText, AlternativeMeanings;
      assert RuleText(m.rules[0]) == RuleText(r) && RuleMeaning(m.rules[0]) == RuleMeaning(r);
      hide RuleText, RuleMeaning;
      Regroup(PieceText(p), PiecesText(r.before, 0), RuleText(r) + RulesText(l, 1));
      assert m.rules[0].before == [p] + Head(l);
      assert RulesText(m, 0) == PiecesText(m.rules[0].before, 0) + (RuleText(m.rules[0]) + RulesText(m, 1));
    }
  }

  lemma Regroup(a: string, b: string, c: string)
    ensures (a + b) + c == a + (b + c)
  {
  }

  lemma RuleInFront(r: RuleLayout, l: Layout)
    requires r.before == []
    ensures Text(WithRule(r, l)) == RuleText(r) + Text(l) && Meaning(WithRule(r, l)) == [RuleMeaning(r)] + Meaning(l)
  {
    hide RuleText, RuleMeaning;
    var m := WithRule(r, l);
    assert m.rules[1..] == l.rules[0..];
    RulesAgree(m, l, 1, 0);
    NoPieces();
    assert RulesText(m, 0) == PiecesText([], 0) + (RuleText(r) + RulesText(m, 1));
  }

  /** The tail of a text starts with its first piece, or with a rule's name. */
  lemma HeadShows(l: Layout, text: string, pos: nat)
    requires FitsTail(l) && pos < |text| && Shows(text, pos, Text(l)) && pos + |Text(l)| == |text|
    ensures Head(l) == [] ==> l.rules != [] && (IsAlpha(text[pos]) || text[pos] == '_')
    ensures Head(l) != [] ==> (match Head(l)[0] case Space(c) => c == text[pos] case Comment(_) => text[pos] == '#')
  {
    var s := Text(l);
    ShowsChar(text, pos, s, 0);
    hide AlternativesText, FitsAlternatives;
    if Head(l) == [] {
      NoPieces();
      if l.rules != [] {
        assert FitsRule(l.rules[0]);
        assert s == "" + (RuleText(l.rules[0]) + RulesText(l, 1));
      }
    } else {
      var pieces := Head(l);
      assert PiecesText(pieces, 0) == PieceText(pieces[0]) + PiecesText(pieces, 1);
      hide RuleText, PieceText;
      assert s[0] == PieceText(pieces[0])[0];
    }
  }

  lemma SomethingLeft(l: Layout)
    requires FitsTail(l) && l != Layout([], [])
    ensures Text(l) != ""
  {
    if l.rules != [] {
      assert FitsRule(l.rules[0]);
      hide PiecesText, AlternativesText, FitsAlternatives;
      assert |Text(l)| >= |RuleText(l.rules[0])| > 0;
    } else {
      assert PiecesText(l.after, 0) == PieceText(l.after[0]) + PiecesText(l.after, 1);
    }
  }

  /** What the text says from pos on. */
  ghost predicate IsTailAt(l: Layout, text: string, pos: nat, rules: seq<Rule>) {
    FitsTail(l) && Shows(text, pos, Text(l)) && pos + |Text(l)| == |text| && Meaning(l) == rules
  }

  lemma PieceFits(p: Piece, pieces: seq<Piece>, atEnd: bool)
    requires FitsPieces(pieces, atEnd) && FitsPiece([p] + pieces, 0, atEnd)
    ensures FitsPieces([p] + pieces, atEnd)
  {
    var all := [p] + pieces;
    forall i | 0 < i < |all| ensures FitsPiece(all, i, atEnd) {
      assert FitsPiece(pieces, i - 1, atEnd) && all[i] == pieces[i - 1];
      assert i + 1 < |all| ==> all[i + 1] == pieces[i];
    }
  }

  lemma PieceFound(p: Piece, text: string, pos: nat, end: nat, l: Layout, rules: seq<Rule>)
    requires pos <= end <= |text| && Shows(text, pos, PieceText(p)) && pos + |PieceText(p)| == end
    requires IsTailAt(l, text, end, rules) && FitsPiece([p] + Head(l), 0, l.rules == [])
    ensures IsTailAt(WithPiece(p, l), text, pos, rules)
  {
    hide FitsPiece, FitsPieces, PieceText, EndsRule;
    PieceInFront(p, l);
    hide Text, Meaning;
    ShowsJoined(text, pos, PieceText(p), Text(l));
    PieceFits(p, Head(l), l.rules == []) by { HeadFits(l); }
  }

  lemma HeadFits(l: Layout)
    requires FitsTail(l)
    ensures FitsPieces(Head(l), l.rules == [])
  {
    if l.rules != [] {
      assert FitsRule(l.rules[0]);
    }
  }

  /** Behind a comment comes its line end, or the text ends. */
  lemma CommentFits(inside: string, text: string, end: nat, l: Layout)
    requires '\n' !in inside && end <= |text| && (end < |text| ==> text[end] == '\n')
    requires FitsTail(l) && Shows(text, end, Text(l)) && end + |Text(l)| == |text|
    ensures FitsPiece([Comment(inside)] + Head(l), 0, l.rules == [])
  {
    hide Text;
    if end < |text| {
      HeadShows(l, text, end);
    } else if l != Layout([], []) {
      SomethingLeft(l);
    }
  }

  /** Behind a rule comes a line end or a comment, or the text ends. */
  lemma RuleEndsBefore(text: string, end: nat, l: Layout)
    requires end <= |text| && StopsChoice(text, end)
    requires FitsTail(l) && Shows(text, end, Text(l)) && end + |Text(l)| == |text|
    ensures EndsRule(Head(l)) || l == Layout([], [])
  {
    HeadFits(l);
    hide Text, FitsRule;
    if end < |text| {
      HeadShows(l, text, end);
      assert Head(l) != [] && FitsPiece(Head(l), 0, l.rules == []);
    } else if l != Layout([], []) {
      SomethingLeft(l);
    }
  }

  lemma RuleAdded(r: RuleLayout, text: string, pos: nat, end: nat, l: Layout, rules: seq<Rule>)
    requires pos <= end <= |text| && FitsRule(r) && r.before == [] && Shows(text, pos, RuleText(r)) && pos + |RuleText(r)| == end
    requires IsTailAt(l, text, end, rules) && StopsChoice(text, end)
    ensures IsTailAt(WithRule(r, l), text, pos, [RuleMeaning(r)] + rules)
  {
    RuleEndsBefore(text, end, l);
    RuleInFront(r, l);
    hide Text, Meaning, RuleText, RuleMeaning, FitsRule, FitsPieces, EndsRule;
    ShowsJoined(text, pos, RuleText(r), Text(l));
    var m := WithRule(r, l);
    assert forall i :: 0 < i < |m.rules| ==> m.rules[i] == l.rules[i - 1];
  }

  lemma {:induction false} RulesFound(text: string, pos: nat) returns (l: Layout)
    requires pos <= |text| && ReadRules(text, pos).Ok?
    ensures IsTailAt(l, text, pos, ReadRules(text, pos).value)
    decreases |text| - pos
  {
    hide ReadRules, Text, Meaning, FitsTail, Find;
    RuleStep(text, pos);
    if pos == |text| {
      l := Layout([], []);
      EmptyTail(text);
    } else if IsSpace(text[pos]) {
      SpaceBeforeRules(text, pos);
      var rest := RulesFound(text, pos + 1);
      l := WithPiece(Space(text[pos]), rest);
      ShowsBetween(text, pos, pos + 1);
      PieceFound(Space(text[pos]), text, pos, pos + 1, rest, ReadRules(text, pos).value);
    } else if text[pos] == '#' {
      var end := Find(text, pos, '\n');
      CommentBeforeRules(text, pos, end);
      var rest := RulesFound(text, end);
      var inside := text[pos + 1..end];
      l := WithPiece(Comment(inside), rest);
      ShowsBetween(text, pos, end);
      assert text[pos..end] == "#" + inside;
      CommentFits(inside, text, end, rest);
      PieceFound(Comment(inside), text, pos, end, rest, ReadRules(text, pos).value);
    } else {
      var r, end := RuleFound(text, pos);
      var rest := RulesFound(text, end);
      l := WithRule(r, rest);
      RuleAdded(r, text, pos, end, rest, ReadRules(text, end).value);
    }
  }

  lemma EmptyTail(text: string)
    ensures ReadRules(text, |text|) == Ok([], |text|) && IsTailAt(Layout([], []), text, |text|, [])
  {
    NoPieces();
  }

  lemma RuleFound(text: string, pos: nat) returns (r: RuleLayout, end: nat)
    requires pos < |text| && ReadRules(text, pos).Ok? && !IsSpace(text[pos]) && text[pos] != '#'
    ensures pos < end <= |text| && FitsRule(r) && r.before == [] && StopsChoice(text, end)
    ensures Shows(text, pos, RuleText(r)) && pos + |RuleText(r)| == end
    ensures ReadRules(text, end).Ok? && ReadRules(text, pos).value == [RuleMeaning(r)] + ReadRules(text, end).value
  {
    hide ReadRules, SkipInline, IdentifierEnd, ReadAlternatives, AlternativesText, AlternativeMeanings, FitsAlternatives;
    RuleStep(text, pos);
    assert PegSemantics.SkipWhitespace(text, pos) == pos;
    var name := IdentifierEnd(text, pos);
    var arrow := SkipInline(text, name);
    SkippedIsGap(text, name);
    var alternatives := AlternativesFound(text, arrow + 2);
    end := ReadChoice(text, arrow + 2).pos;
    r := RuleLayout([], text[pos..name], text[name..arrow], alternatives);
    RuleShown(text, pos, name, arrow, end, alternatives);
    assert FitsPieces([], false);
    hide RuleText;
  }

  lemma RuleShown(text: string, pos: nat, name: nat, arrow: nat, end: nat, alternatives: seq<Alternative>)
    requires pos <= name <= arrow && arrow + 1 < |text| && text[arrow] == '<' && text[arrow + 1] == '-'
    requires Shows(text, arrow + 2, AlternativesText(alternatives, 0)) && arrow + 2 + |AlternativesText(alternatives, 0)| == end
    ensures var r := RuleLayout([], text[pos..name], text[name..arrow], alternatives);
      Shows(text, pos, RuleText(r)) && pos + |RuleText(r)| == end
  {
    hide AlternativesText;
    var body := AlternativesText(alternatives, 0);
    ShowsBetween(text, pos, name);
    ShowsBetween(text, name, arrow);
    ShowsBetween(text, arrow, arrow + 2);
    assert text[arrow..arrow + 2] == "<-";
    ShowsJoined(text, arrow, "<-", body);
    ShowsJoined(text, name, text[name..arrow], "<-" + body);
    ShowsJoined(text, pos, text[pos..name], text[name..arrow] + ("<-" + body));
  }

  /** A text compiles to these rules exactly when it is the text of a layout that means them. */
  lemma CompilesIff(text: string, rules: seq<Rule>)
    ensures (ReadGrammar(text).Ok? && ReadGrammar(text).value == rules) <==>
            exists l :: Fits(l) && Text(l) == text && Meaning(l) == rules
  {
    if ReadGrammar(text).Ok? {
      var l := RulesFound(text, 0);
      ShowsSlice(text, 0, Text(l));
      assert text[0..|text|] == text;
      hide ReadRules, Text;
      assert l.rules != [];
      assert Fits(l);
    }
    forall l | Fits(l) && Text(l) == text && Meaning(l) == rules
      ensures ReadGrammar(text).Ok? && ReadGrammar(text).value == rules
    {
      LayoutReads(l);
    }
  }

  // ----- every printable rule list can be written down

  /** One way to write a tree, with parentheses round all that has parts. */
  function PlainTerm(e: Expr): Term
    decreases e, 1
  {
    match e
    case Literal(text) => Quoted(if '\'' in text then '"' else '\'', text)
    case CharClass(spec) => Class(spec)
    case Dot => AnyChar
    case Reference(name) => Name(name)
    case Sequence(children) => Group([Alternative(PlainElements(children, 0), "")])
    case Choice(children) => Group(PlainAlternatives(children, 0))
    case _ => Group([Alternative([PlainUnary(e)], "")])
  }

  function PlainUnary(e: Expr): Element
    decreases e, 0
  {
    match e
    case AndPredicate(inner) => Element(" ", "&", PlainTerm(inner), "")
    case NotPredicate(inner) => Element(" ", "!", PlainTerm(inner), "")
    case Optional(inner) => Element(" ", "", PlainTerm(inner), "?")
    case Star(inner) => Element(" ", "", PlainTerm(inner), "*")
    case Plus(inner) => Element(" ", "", PlainTerm(inner), "+")
    case _ => Element(" ", "", AnyChar, "")
  }

  function PlainElements(es: seq<Expr>, i: nat): (elements: seq<Element>)
    ensures |elements| == if i <= |es| then |es| - i else 0
    decreases es, |es| - i
  {
    if i >= |es| then [] else [Element(" ", "", PlainTerm(es[i]), "")] + PlainElements(es, i + 1)
  }

  function PlainAlternatives(es: seq<Expr>, i: nat): (alternatives: seq<Alternative>)
    ensures |alternatives| == if i <= |es| then |es| - i else 0
    decreases es, |es| - i
  {
    if i >= |es| then []
    else [Alternative([Element(" ", "", PlainTerm(es[i]), "")], "")] + PlainAlternatives(es, i + 1)
  }

  lemma {:induction false} PlainTermMeans(e: Expr)
    requires Printable(e)
    ensures FitsTerm(PlainTerm(e)) && TermMeaning(PlainTerm(e)) == e
    decreases e, 2
  {
    match e
    case Sequence(children) =>
      PlainElementsMean(children, 0);
      OneAlternativeMeans(Alternative(PlainElements(children, 0), ""));
      assert children[0..] == children;
    case Choice(children) =>
      PlainAlternativesMean(children, 0);
      assert children[0..] == children;
    case AndPredicate(inner) => PlainUnaryMeans(e, inner);
    case NotPredicate(inner) => PlainUnaryMeans(e, inner);
    case Optional(inner) => PlainUnaryMeans(e, inner);
    case Star(inner) => PlainUnaryMeans(e, inner);
    case Plus(inner) => PlainUnaryMeans(e, inner);
    case _ =>
  }

  lemma OneAlternativeMeans(a: Alternative)
    requires FitsAlternative(a)
    ensures FitsTerm(Group([a])) && TermMeaning(Group([a])) == AlternativeMeaning(a)
  {
    hide FitsAlternative, AlternativeMeaning;
    AlternativesPrepended(a, []);
    NoneMean();
    assert [a] + [] == [a];
  }

  lemma OneElementMeans(e: Element)
    requires FitsElement(e)
    ensures FitsAlternative(Alternative([e], "")) && AlternativeMeaning(Alternative([e], "")) == ElementMeaning(e)
  {
    hide FitsElement, ElementMeaning;
    ElementsPrepended(e, [], "");
    NoElementsMean();
    assert [e] + [] == [e];
  }

  lemma OnePrefix(c: char, e: Expr)
    ensures Prefixed([c], e) == if c == '&' then AndPredicate(e) else NotPredicate(e)
    ensures Prefixed("", e) == e
  {
    assert [c][1..] == "";
  }

  lemma {:induction false} PlainUnaryMeans(e: Expr, inner: Expr)
    requires e == AndPredicate(inner) || e == NotPredicate(inner) || e == Optional(inner) || e == Star(inner) || e == Plus(inner)
    requires Printable(inner)
    ensures FitsTerm(PlainTerm(e)) && TermMeaning(PlainTerm(e)) == e
    decreases inner, 3
  {
    PlainTermMeans(inner);
    var element := PlainUnary(e);
    hide FitsAlternatives, AlternativeMeanings, FitsTerm, TermMeaning;
    assert element.term == PlainTerm(inner);
    assert FitsElement(element);
    OnePrefix('&', inner);
    OnePrefix('!', inner);
    assert ElementMeaning(element) == e;
    OneElementMeans(element);
    OneAlternativeMeans(Alternative([element], ""));
  }

  lemma {:induction false} PlainElementsMean(es: seq<Expr>, i: nat)
    requires i <= |es| && forall k :: 0 <= k < |es| ==> Printable(es[k])
    ensures FitsElements(PlainElements(es, i)) && ElementMeanings(PlainElements(es, i), 0) == es[i..]
    ensures forall e :: e in PlainElements(es, i) ==> e.gap == " "
    decreases es, |es| - i
  {
    if i == |es| {
    } else {
      var element, rest := Element(" ", "", PlainTerm(es[i]), ""), PlainElements(es, i + 1);
      PlainTermMeans(es[i]);
      PlainElementsMean(es, i + 1);
      PlainElementMeans(es[i]);
      hide PlainTerm, FitsElement, ElementMeaning, FitsTerm, TermMeaning;
      hide FitsElements, PlainElements;
      PlainStep(es, i);
      ElementsPrepended(element, rest, "");
      BlankIsApart(element, rest);
      assert es[i..] == [es[i]] + es[i + 1..];
    }
  }

  lemma PlainStep(es: seq<Expr>, i: nat)
    requires i < |es|
    ensures PlainElements(es, i) == [Element(" ", "", PlainTerm(es[i]), "")] + PlainElements(es, i + 1)
    ensures PlainAlternatives(es, i) ==
            [Alternative([Element(" ", "", PlainTerm(es[i]), "")], "")] + PlainAlternatives(es, i + 1)
  {
    hide PlainTerm;
  }

  lemma BlankIsApart(e: Element, es: seq<Element>)
    requires FitsElement(e) && FitsElements(es) && forall f :: f in es ==> f.gap == " "
    ensures FitsElements([e] + es)
  {
    hide FitsElement;
    var all := [e] + es;
    assert forall k :: 0 < k < |all| ==> all[k] == es[k - 1];
    assert forall k :: 0 <= k < |es| ==> es[k] in es;
  }

  lemma PlainElementMeans(e: Expr)
    requires FitsTerm(PlainTerm(e)) && TermMeaning(PlainTerm(e)) == e
    ensures var element := Element(" ", "", PlainTerm(e), ""); FitsElement(element) && ElementMeaning(element) == e
  {
  }

  lemma {:induction false} PlainAlternativesMean(es: seq<Expr>, i: nat)
    requires i <= |es| && forall k :: 0 <= k < |es| ==> Printable(es[k])
    ensures i < |es| ==> FitsAlternatives(PlainAlternatives(es, i))
    ensures AlternativeMeanings(PlainAlternatives(es, i), 0) == es[i..]
    decreases es, |es| - i
  {
    if i == |es| {
    } else {
      var element := Element(" ", "", PlainTerm(es[i]), "");
      PlainTermMeans(es[i]);
      PlainAlternativesMean(es, i + 1);
      PlainElementMeans(es[i]);
      OneElementMeans(element);
      PlainStep(es, i);
      hide PlainTerm, PlainAlternatives, FitsAlternative, AlternativeMeaning, FitsElement, ElementMeaning;
      AlternativesPrepended(Alternative([element], ""), PlainAlternatives(es, i + 1));
      assert es[i..] == [es[i]] + es[i + 1..];
    }
  }

  /** One rule to a line. */
  function PlainRule(rule: Rule): RuleLayout {
    RuleLayout([Space('\n')], rule.name, " ", [Alternative([Element(" ", "", PlainTerm(rule.expression), "")], "")])
  }

  lemma {:induction false} PrintableHasLayout(rules: seq<Rule>) returns (l: Layout)
    requires PrintableRules(rules) && rules != []
    ensures Fits(l) && Meaning(l) == rules
  {
    l := PlainLayout(rules, 0);
    assert rules[0..] == rules;
  }

  lemma {:induction false} PlainLayout(rules: seq<Rule>, i: nat) returns (l: Layout)
    requires PrintableRules(rules) && i <= |rules|
    ensures FitsTail(l) && Meaning(l) == rules[i..] && l.after == [] && |l.rules| == |rules| - i
    ensures forall k :: 0 <= k < |l.rules| ==> EndsRule(l.rules[k].before)
    decreases |rules| - i
  {
    if i == |rules| {
      l := Layout([], []);
    } else {
      var r := PlainRule(rules[i]);
      var rest := PlainLayout(rules, i + 1);
      l := WithRule(r, rest);
      PlainRuleMeans(rules[i]);
      LineAdded(r, rest);
      hide PlainRule, FitsTail, Meaning, EndsRule;
      assert forall k :: 0 < k < |l.rules| ==> l.rules[k] == rest.rules[k - 1];
      assert rules[i..] == [rules[i]] + rules[i + 1..];
    }
  }

  lemma LineAdded(r: RuleLayout, l: Layout)
    requires FitsRule(r) && FitsTail(l) && l.after == [] && (l.rules != [] ==> EndsRule(l.rules[0].before))
    ensures FitsTail(WithRule(r, l)) && Meaning(WithRule(r, l)) == [RuleMeaning(r)] + Meaning(l)
  {
    hide FitsRule, RuleMeaning, EndsRule, FitsPieces;
    var m := WithRule(r, l);
    assert forall k :: 0 < k < |m.rules| ==> m.rules[k] == l.rules[k - 1];
    assert m.rules[1..] == l.rules[0..];
    RulesAgree(m, l, 1, 0);
  }

  lemma PlainRuleMeans(rule: Rule)
    requires IsIdentifier(rule.name) && Printable(rule.expression)
    ensures var r := PlainRule(rule); FitsRule(r) && RuleMeaning(r) == rule && EndsRule(r.before)
  {
    var element := Element(" ", "", PlainTerm(rule.expression), "");
    PlainTermMeans(rule.expression);
    PlainElementMeans(rule.expression);
    OneElementMeans(element);
    hide PlainTerm, FitsElement, ElementMeaning, FitsAlternative, AlternativeMeaning;
    OneAlternativeMeans(Alternative([element], ""));
    assert FitsPiece([Space('\n')], 0, false);
  }

  /** The rule lists that grammar text can denote are exactly the printable ones. */
  lemma ReadableIffPrintable(rules: seq<Rule>)
    ensures (exists text :: ReadGrammar(text).Ok? && ReadGrammar(text).value == rules) <==>
            (PrintableRules(rules) && rules != [])
  {
    if PrintableRules(rules) && rules != [] {
      var l := PrintableHasLayout(rules);
      LayoutReads(l);
    }
  }

  predicate NoEmptyLiteral(e: Expr) {
    match e
    case Literal(text) => text != []
    case Sequence(children) => forall i :: 0 <= i < |children| ==> NoEmptyLiteral(children[i])
    case Choice(children) => forall i :: 0 <= i < |children| ==> NoEmptyLiteral(children[i])
    case AndPredicate(inner) => NoEmptyLiteral(inner)
    case NotPredicate(inner) => NoEmptyLiteral(inner)
    case Optional(inner) => NoEmptyLiteral(inner)
    case Star(inner) => NoEmptyLiteral(inner)
    case Plus(inner) => NoEmptyLiteral(inner)
    case _ => true
  }

  /** What the parser reads is what the matcher needs, but for empty literals: '' can be
      written in a grammar, and the matcher looks at a literal's last character. */
  lemma {:induction false} ReadTreesAreShapedIff(e: Expr)
    requires Printable(e)
    ensures WellShaped(e) <==> NoEmptyLiteral(e)
  {
    match e
    case Sequence(children) =>
      forall i | 0 <= i < |children| ensures WellShaped(children[i]) <==> NoEmptyLiteral(children[i]) {
        ReadTreesAreShapedIff(children[i]);
      }
    case Choice(children) =>
      forall i | 0 <= i < |children| ensures WellShaped(children[i]) <==> NoEmptyLiteral(children[i]) {
        ReadTreesAreShapedIff(children[i]);
      }
    case AndPredicate(inner) => ReadTreesAreShapedIff(inner);
    case NotPredicate(inner) => ReadTreesAreShapedIff(inner);
    case Optional(inner) => ReadTreesAreShapedIff(inner);
    case Star(inner) => ReadTreesAreShapedIff(inner);
    case Plus(inner) => ReadTreesAreShapedIff(inner);
    case _ =>
  }
}
