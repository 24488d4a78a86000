/** Grammar text and rules: whatever way rules are laid out, compiling the text gives them back,
    and every text that compiles is the text of a layout. */
module PegRoundTrip {
  import opened PegSyntax
  import opened PegGrammar
  import opened PegLayouts
  import PegSemantics

  predicate Shows(text: string, pos: nat, s: string) {
    pos + |s| <= |text| && text[pos..pos + |s|] == s
  }

  lemma ShowsParts(text: string, pos: nat, a: string, b: string)
    requires Shows(text, pos, a + b)
    ensures Shows(text, pos, a) && Shows(text, pos + |a|, b)
  {
    assert text[pos..pos + |a|] == (a + b)[..|a|] == a;
    assert text[pos + |a|..pos + |a| + |b|] == (a + b)[|a|..] == b;
  }

  lemma ShowsChar(text: string, pos: nat, s: string, k: nat)
    requires Shows(text, pos, s) && k < |s|
    ensures text[pos + k] == s[k]
  {
  }

  lemma ShowsSlice(text: string, pos: nat, s: string)
    requires Shows(text, pos, s)
    ensures pos + |s| <= |text| && text[pos..pos + |s|] == s
  {
  }

  // ----- scanning

  lemma {:induction false} GapReads(text: string, pos: nat, gap: string)
    requires Shows(text, pos, gap) && IsGap(gap)
    ensures SkipInline(text, pos) == SkipInline(text, pos + |gap|)
    decreases |gap|
  {
    if gap == "" {
    } else {
      ShowsChar(text, pos, gap, 0);
      assert gap == [gap[0]] + gap[1..];
      ShowsParts(text, pos, [gap[0]], gap[1..]);
      GapReads(text, pos + 1, gap[1..]);
    }
  }

  lemma QuotedReads(text: string, pos: nat, open: char, inside: string, close: char)
    requires Shows(text, pos, [open] + inside + [close]) && close !in inside
    ensures pos + 1 + |inside| < |text| && Find(text, pos + 1, close) == pos + 1 + |inside|
    ensures text[pos + 1..pos + 1 + |inside|] == inside
    ensures text[pos] == open
  {
    QuotedParts(text, pos, open, inside, close);
    hide Shows, Find;
    InsideReads(text, pos + 1, inside, close);
  }

  lemma QuotedParts(text: string, pos: nat, open: char, inside: string, close: char)
    requires Shows(text, pos, [open] + inside + [close])
    ensures pos + 1 + |inside| < |text| && text[pos] == open && Shows(text, pos + 1, inside) && text[pos + 1 + |inside|] == close
  {
    ShowsParts(text, pos, [open] + inside, [close]);
    ShowsParts(text, pos, [open], inside);
    ShowsChar(text, pos, [open], 0);
    ShowsChar(text, pos + 1 + |inside|, [close], 0);
  }

  lemma InsideReads(text: string, pos: nat, inside: string, close: char)
    requires Shows(text, pos, inside) && close !in inside
    ensures forall i :: pos <= i < pos + |inside| ==> text[i] != close
    ensures text[pos..pos + |inside|] == inside
  {
    forall i | pos <= i < pos + |inside| ensures text[i] == inside[i - pos] {
      ShowsChar(text, pos, inside, i - pos);
    }
  }

  lemma NameReads(text: string, pos: nat, name: string)
    requires Shows(text, pos, name) && IsIdentifier(name)
    requires pos + |name| < |text| ==> !IsIdentifierChar(text[pos + |name|])
    ensures text[pos] == name[0] && IdentifierEnd(text, pos) == pos + |name|
  {
  }

  // ----- what may follow

  /** The element's text ends here: nothing that follows belongs to it. */
  predicate EndsHere(e: Element, text: string, end: nat)
    requires end <= |text|
  {
    e.suffix == "" && end < |text| ==>
      && text[end] != '?' && text[end] != '*' && text[end] != '+'
      && (e.term.Name? ==> !IsIdentifierChar(text[end]))
  }

  /** The end of the text or one of the characters that end a sequence. */
  predicate StopsSequence(text: string, end: nat)
    requires end <= |text|
  {
    end < |text| ==> text[end] == '\n' || text[end] == '/' || text[end] == ')' || text[end] == '#'
  }

  predicate StopsChoice(text: string, end: nat)
    requires end <= |text|
  {
    StopsSequence(text, end) && (end < |text| ==> text[end] != '/')
  }

  lemma TermStarts(t: Term)
    requires FitsTerm(t)
    ensures var s := TermText(t);
      && s != [] && !IsInline(s[0]) && !EndsSequence(s[0])
      && s[0] != '&' && s[0] != '!' && s[0] != '?' && s[0] != '*' && s[0] != '+'
      && (IsIdentifierChar(s[0]) ==> t.Name?)
  {
    hide AlternativesText, FitsAlternatives;
  }

  lemma BareStarts(e: Element)
    requires FitsElement(e)
    ensures var s := BareText(e);
      && s != [] && !IsInline(s[0]) && !EndsSequence(s[0])
      && s[0] != '?' && s[0] != '*' && s[0] != '+'
      && (IsIdentifierChar(s[0]) ==> e.term.Name? && e.prefixes == "")
  {
    hide TermText, FitsTerm;
    TermStarts(e.term);
  }

  // ----- reading a layout back

  lemma {:induction false} TermReads(t: Term, text: string, pos: nat)
    requires FitsTerm(t) && Shows(text, pos, TermText(t))
    requires t.Name? && pos + |TermText(t)| < |text| ==> !IsIdentifierChar(text[pos + |TermText(t)|])
    ensures ReadTerm(text, pos) == Ok(TermMeaning(t), pos + |TermText(t)|)
    decreases t
  {
    if t.Group? {
      GroupReads(t.alternatives, text, pos);
    } else {
      LeafReads(t, text, pos);
    }
  }

  lemma LeafReads(t: Term, text: string, pos: nat)
    requires !t.Group? && FitsTerm(t) && Shows(text, pos, TermText(t))
    requires t.Name? && pos + |TermText(t)| < |text| ==> !IsIdentifierChar(text[pos + |TermText(t)|])
    ensures ReadTerm(text, pos) == Ok(TermMeaning(t), pos + |TermText(t)|)
  {
    hide ReadChoice, Find, IdentifierEnd, SkipInline, Shows;
    match t {
      case Quoted(quote, inside) => QuotedReads(text, pos, quote, inside, quote);
      case Class(inside) =>
        assert TermText(t) == ['['] + inside + [']'];
        QuotedReads(text, pos, '[', inside, ']');
      case AnyChar =>
        ShowsSlice(text, pos, ".");
        ShowsChar(text, pos, ".", 0);
      case Name(name) =>
        NameReads(text, pos, name);
        ShowsSlice(text, pos, name);
    }
  }

  lemma {:induction false} GroupReads(alternatives: seq<Alternative>, text: string, pos: nat)
    requires FitsAlternatives(alternatives) && Shows(text, pos, TermText(Group(alternatives)))
    ensures ReadTerm(text, pos) == Ok(ChoiceOf(AlternativeMeanings(alternatives, 0)), pos + |TermText(Group(alternatives))|)
    decreases alternatives, |alternatives| + 2
  {
    hide ReadChoice, Find, IdentifierEnd, SkipInline, AlternativesText, AlternativeMeanings, FitsAlternatives, ChoiceOf;
    var body := AlternativesText(alternatives, 0);
    ShowsParts(text, pos, "(", body + ")");
    ShowsParts(text, pos + 1, body, ")");
    ShowsChar(text, pos, "(", 0);
    ShowsChar(text, pos + 1 + |body|, ")", 0);
    ChoiceReads(alternatives, text, pos + 1);
    NothingToSkip(text, pos + 1 + |body|);
  }

  lemma NothingToSkip(text: string, pos: nat)
    requires pos <= |text| && (pos < |text| ==> !IsInline(text[pos]))
    ensures SkipInline(text, pos) == pos
  {
  }

  lemma {:induction false} PrefixesRead(prefixes: string, text: string, pos: nat, e: Expr, end: nat)
    requires forall k :: 0 <= k < |prefixes| ==> prefixes[k] == '&' || prefixes[k] == '!'
    requires Shows(text, pos, prefixes) && pos + |prefixes| < |text|
    requires text[pos + |prefixes|] != '&' && text[pos + |prefixes|] != '!'
    requires ReadSuffix(text, pos + |prefixes|) == Ok(e, end)
    ensures ReadPrefix(text, pos) == Ok(Prefixed(prefixes, e), end)
    decreases |prefixes|
  {
    hide ReadSuffix;
    if prefixes == "" {
    } else {
      ShowsChar(text, pos, prefixes, 0);
      assert prefixes == [prefixes[0]] + prefixes[1..];
      ShowsParts(text, pos, [prefixes[0]], prefixes[1..]);
      PrefixesRead(prefixes[1..], text, pos + 1, e, end);
    }
  }

  lemma SuffixReads(e: Element, term: Expr, text: string, pos: nat, p: nat)
    requires FitsElement(e) && pos <= p && Shows(text, p, e.suffix) && EndsHere(e, text, p + |e.suffix|)
    requires ReadTerm(text, pos) == Ok(term, p)
    ensures ReadSuffix(text, pos) == Ok(Suffixed(term, e.suffix), p + |e.suffix|)
  {
    hide ReadTerm, FitsTerm;
    if e.suffix != "" {
      ShowsChar(text, p, e.suffix, 0);
    }
  }

  lemma {:induction false} ElementReads(e: Element, text: string, pos: nat)
    requires FitsElement(e) && Shows(text, pos, BareText(e)) && EndsHere(e, text, pos + |BareText(e)|)
    ensures ReadPrefix(text, pos) == Ok(ElementMeaning(e), pos + |BareText(e)|)
    decreases e
  {
    hide ReadTerm, ReadSuffix, ReadPrefix, TermText, TermMeaning, FitsTerm, Prefixed, Suffixed;
    var start := pos + |e.prefixes|;
    var p := start + |TermText(e.term)|;
    ShowsParts(text, pos, e.prefixes, TermText(e.term) + e.suffix);
    ShowsParts(text, start, TermText(e.term), e.suffix);
    TermStarts(e.term);
    ShowsChar(text, start, TermText(e.term), 0);
    if e.suffix != "" {
      ShowsChar(text, p, e.suffix, 0);
    }
    TermReads(e.term, text, start);
    SuffixReads(e, TermMeaning(e.term), text, start, p);
    PrefixesRead(e.prefixes, text, pos, Suffixed(TermMeaning(e.term), e.suffix), p + |e.suffix|);
  }

  lemma GapThenNothing(text: string, pos: nat, gap: string)
    requires Shows(text, pos, gap) && IsGap(gap) && StopsSequence(text, pos + |gap|)
    ensures ReadElements(text, pos) == Ok([], pos + |gap|)
  {
    GapReads(text, pos, gap);
    NothingToSkip(text, pos + |gap|);
    hide SkipInline;
  }

  lemma GapThenElement(text: string, pos: nat, gap: string, e: Expr, end: nat, rest: seq<Expr>, stop: nat)
    requires Shows(text, pos, gap) && IsGap(gap) && pos + |gap| < |text|
    requires !IsInline(text[pos + |gap|]) && !EndsSequence(text[pos + |gap|])
    requires ReadPrefix(text, pos + |gap|) == Ok(e, end) && end <= |text| && ReadElements(text, end) == Ok(rest, stop)
    ensures ReadElements(text, pos) == Ok([e] + rest, stop)
  {
    GapReads(text, pos, gap);
    NothingToSkip(text, pos + |gap|);
    hide SkipInline, ReadPrefix;
  }

  /** What element i is followed by, if anything is. */
  lemma NextStarts(es: seq<Element>, i: nat, gap: string)
    requires FitsElements(es) && i < |es| && IsGap(gap)
    ensures var rest := ElementsText(es, i + 1, gap);
      rest != "" ==>
        && rest[0] != '?' && rest[0] != '*' && rest[0] != '+'
        && (es[i].term.Name? && es[i].suffix == "" ==> !IsIdentifierChar(rest[0]))
  {
    if i + 1 < |es| {
      var next := es[i + 1];
      assert Apart(es[i], next) && FitsElement(next);
      BareStarts(next);
      hide FitsTerm, FitsElements, BareText;
      assert ElementsText(es, i + 1, gap) == next.gap + (BareText(next) + ElementsText(es, i + 2, gap));
    }
  }

  /** What comes behind element i does not belong to it. */
  lemma NextEnds(es: seq<Element>, i: nat, gap: string, text: string, pos: nat)
    requires FitsElements(es) && i < |es| && IsGap(gap)
    requires Shows(text, pos, ElementsText(es, i + 1, gap)) && StopsSequence(text, pos + |ElementsText(es, i + 1, gap)|)
    ensures EndsHere(es[i], text, pos)
  {
    hide ElementsText, FitsElements, IsGap, Shows;
    NextStarts(es, i, gap);
    var rest := ElementsText(es, i + 1, gap);
    ShowsSlice(text, pos, rest);
    if rest != "" {
      ShowsChar(text, pos, rest, 0);
    }
  }

  lemma {:induction false} ElementsRead(es: seq<Element>, i: nat, gap: string, text: string, pos: nat)
    requires FitsElements(es) && i <= |es| && IsGap(gap)
    requires Shows(text, pos, ElementsText(es, i, gap)) && StopsSequence(text, pos + |ElementsText(es, i, gap)|)
    ensures ReadElements(text, pos) == Ok(ElementMeanings(es, i), pos + |ElementsText(es, i, gap)|)
    decreases es, |es| - i
  {
    hide ReadElements, ReadPrefix, BareText, ElementMeaning, SkipInline;
    if i == |es| {
      GapThenNothing(text, pos, gap);
    } else {
      var e, rest := es[i], ElementsText(es, i + 1, gap);
      var start := pos + |e.gap|;
      var end := start + |BareText(e)|;
      assert FitsElement(e);
      ShowsParts(text, pos, e.gap, BareText(e) + rest);
      ShowsParts(text, start, BareText(e), rest);
      BareStarts(e);
      ShowsChar(text, start, BareText(e), 0);
      NextEnds(es, i, gap, text, end);
      ElementReads(e, text, start);
      ElementsRead(es, i + 1, gap, text, end);
      GapThenElement(text, pos, e.gap, ElementMeaning(e), end, ElementMeanings(es, i + 1), end + |rest|);
    }
  }

  lemma {:induction false} AlternativeReads(a: Alternative, text: string, pos: nat)
    requires FitsAlternative(a) && Shows(text, pos, AlternativeText(a)) && StopsSequence(text, pos + |AlternativeText(a)|)
    ensures ReadSequence(text, pos) == Ok(AlternativeMeaning(a), pos + |AlternativeText(a)|)
    decreases a
  {
    ElementsRead(a.elements, 0, a.gap, text, pos);
    hide ReadElements, ElementsText;
  }

  lemma LastAlternative(text: string, pos: nat, e: Expr, end: nat)
    requires pos <= |text| && end <= |text| && ReadSequence(text, pos) == Ok(e, end) && StopsChoice(text, end)
    ensures ReadAlternatives(text, pos) == Ok([e], end)
  {
    NothingToSkip(text, end);
    hide ReadSequence, SkipInline;
  }

  lemma OneAlternative(text: string, pos: nat, e: Expr, slash: nat, rest: seq<Expr>, stop: nat)
    requires pos <= |text| && slash < |text| && text[slash] == '/'
    requires ReadSequence(text, pos) == Ok(e, slash)
    requires ReadAlternatives(text, slash + 1) == Ok(rest, stop)
    ensures ReadAlternatives(text, pos) == Ok([e] + rest, stop)
  {
    NothingToSkip(text, slash);
    hide ReadSequence, SkipInline;
  }

  lemma AlternativesParts(alternatives: seq<Alternative>, i: nat)
    requires FitsAlternatives(alternatives) && i < |alternatives|
    ensures FitsAlternative(alternatives[i])
    ensures AlternativesText(alternatives, i) ==
            (if i + 1 < |alternatives| then AlternativeText(alternatives[i]) + ("/" + AlternativesText(alternatives, i + 1))
             else AlternativeText(alternatives[i]))
    ensures AlternativeMeanings(alternatives, i) ==
            [AlternativeMeaning(alternatives[i])] + (if i + 1 < |alternatives| then AlternativeMeanings(alternatives, i + 1) else [])
  {
    hide AlternativeText, AlternativeMeaning, FitsAlternative;
  }

  lemma {:induction false} AlternativesRead(alternatives: seq<Alternative>, i: nat, text: string, pos: nat)
    requires FitsAlternatives(alternatives) && i < |alternatives|
    requires Shows(text, pos, AlternativesText(alternatives, i)) && StopsChoice(text, pos + |AlternativesText(alternatives, i)|)
    ensures ReadAlternatives(text, pos) == Ok(AlternativeMeanings(alternatives, i), pos + |AlternativesText(alternatives, i)|)
    decreases alternatives, |alternatives| - i
  {
    hide ReadAlternatives, ReadSequence, AlternativesText, AlternativeMeanings, AlternativeText, AlternativeMeaning,
         FitsAlternative, FitsAlternatives, Shows;
    var a := alternatives[i];
    var end := pos + |AlternativeText(a)|;
    AlternativesParts(alternatives, i);
    if i + 1 < |alternatives| {
      var rest := AlternativesText(alternatives, i + 1);
      ShowsParts(text, pos, AlternativeText(a), "/" + rest);
      ShowsSlice(text, end, "/" + rest);
      ShowsParts(text, end, "/", rest);
      ShowsChar(text, end, "/", 0);
      AlternativeReads(a, text, pos);
      AlternativesRead(alternatives, i + 1, text, end + 1);
      OneAlternative(text, pos, AlternativeMeaning(a), end, AlternativeMeanings(alternatives, i + 1), end + 1 + |rest|);
    } else {
      ShowsSlice(text, pos, AlternativeText(a));
      AlternativeReads(a, text, pos);
      LastAlternative(text, pos, AlternativeMeaning(a), end);
      assert [AlternativeMeaning(a)] + [] == [AlternativeMeaning(a)];
    }
  }

  lemma {:induction false} ChoiceReads(alternatives: seq<Alternative>, text: string, pos: nat)
    requires FitsAlternatives(alternatives)
    requires Shows(text, pos, AlternativesText(alternatives, 0)) && StopsChoice(text, pos + |AlternativesText(alternatives, 0)|)
    ensures ReadChoice(text, pos) == Ok(ChoiceOf(AlternativeMeanings(alternatives, 0)), pos + |AlternativesText(alternatives, 0)|)
    decreases alternatives, |alternatives| + 1
  {
    AlternativesRead(alternatives, 0, text, pos);
    hide ReadAlternatives, AlternativesText, FitsAlternatives, AlternativeMeaning;
  }

  // ----- between rules

  lemma SpaceBeforeRules(text: string, pos: nat)
    requires pos < |text| && IsSpace(text[pos])
    ensures ReadRules(text, pos) == ReadRules(text, pos + 1)
  {
    RuleStep(text, pos);
    RuleStep(text, pos + 1);
    hide ReadRules;
  }

  lemma CommentBeforeRules(text: string, pos: nat, end: nat)
    requires pos < end <= |text| && text[pos] == '#'
    requires (forall k :: pos <= k < end ==> text[k] != '\n') && (end < |text| ==> text[end] == '\n')
    ensures ReadRules(text, pos) == ReadRules(text, end)
  {
    RuleStep(text, pos);
    hide ReadRules;
    assert Find(text, pos, '\n') == end;
  }

  lemma CommentShows(text: string, pos: nat, inside: string)
    requires Shows(text, pos, "#" + inside) && '\n' !in inside
    ensures text[pos] == '#' && forall k :: pos <= k < pos + 1 + |inside| ==> text[k] != '\n'
  {
    ShowsChar(text, pos, "#" + inside, 0);
    forall k | pos <= k < pos + 1 + |inside| ensures text[k] != '\n' {
      ShowsChar(text, pos, "#" + inside, k - pos);
    }
  }

  lemma {:induction false} PiecesRead(pieces: seq<Piece>, i: nat, atEnd: bool, text: string, pos: nat)
    requires FitsPieces(pieces, atEnd) && i <= |pieces| && Shows(text, pos, PiecesText(pieces, i))
    requires atEnd ==> pos + |PiecesText(pieces, i)| == |text|
    ensures ReadRules(text, pos) == ReadRules(text, pos + |PiecesText(pieces, i)|)
    decreases |pieces| - i
  {
    hide ReadRules, PieceText, FitsPiece;
    if i == |pieces| {
    } else {
      var piece, rest := PieceText(pieces[i]), PiecesText(pieces, i + 1);
      ShowsParts(text, pos, piece, rest);
      PiecesRead(pieces, i + 1, atEnd, text, pos + |piece|);
      PieceReads(pieces, i, atEnd, text, pos);
    }
  }

  lemma PieceReads(pieces: seq<Piece>, i: nat, atEnd: bool, text: string, pos: nat)
    requires FitsPieces(pieces, atEnd) && i < |pieces| && Shows(text, pos, PieceText(pieces[i]) + PiecesText(pieces, i + 1))
    requires atEnd ==> pos + |PieceText(pieces[i]) + PiecesText(pieces, i + 1)| == |text|
    ensures pos + |PieceText(pieces[i])| <= |text|
    ensures ReadRules(text, pos) == ReadRules(text, pos + |PieceText(pieces[i])|)
  {
    hide ReadRules, Shows;
    var piece, rest := PieceText(pieces[i]), PiecesText(pieces, i + 1);
    var end := pos + |piece|;
    assert FitsPiece(pieces, i, atEnd);
    ShowsParts(text, pos, piece, rest);
    ShowsSlice(text, end, rest);
    if pieces[i].Space? {
      ShowsSlice(text, pos, piece);
      ShowsChar(text, pos, piece, 0);
      SpaceBeforeRules(text, pos);
    } else {
      CommentShows(text, pos, pieces[i].inside);
      if i + 1 < |pieces| {
        assert rest == "\n" + PiecesText(pieces, i + 2);
        ShowsChar(text, end, rest, 0);
      } else {
        assert rest == "";
      }
      CommentBeforeRules(text, pos, end);
    }
  }

  /** Where the text of a rule's filler begins, its alternatives end. */
  lemma FillerStops(pieces: seq<Piece>, text: string, pos: nat)
    requires EndsRule(pieces) && Shows(text, pos, PiecesText(pieces, 0))
    ensures StopsChoice(text, pos) && pos < |text|
  {
    assert PiecesText(pieces, 0) == PieceText(pieces[0]) + PiecesText(pieces, 1);
    ShowsChar(text, pos, PiecesText(pieces, 0), 0);
  }

  lemma RuleStarts(text: string, pos: nat)
    requires pos < |text| && (IsAlpha(text[pos]) || text[pos] == '_')
    ensures PegSemantics.SkipWhitespace(text, pos) == pos && text[pos] != '#'
  {
  }

  lemma RuleShows(r: RuleLayout, text: string, pos: nat)
    requires Shows(text, pos, RuleText(r))
    ensures var arrow := pos + |r.name| + |r.gap|;
      && Shows(text, pos, r.name) && Shows(text, pos + |r.name|, r.gap)
      && arrow + 1 < |text| && text[arrow] == '<' && text[arrow + 1] == '-'
      && Shows(text, arrow + 2, AlternativesText(r.alternatives, 0))
      && |RuleText(r)| == |r.name| + |r.gap| + 2 + |AlternativesText(r.alternatives, 0)|
  {
    var body, arrow := AlternativesText(r.alternatives, 0), pos + |r.name| + |r.gap|;
    ShowsParts(text, pos, r.name, r.gap + ("<-" + body));
    ShowsParts(text, pos + |r.name|, r.gap, "<-" + body);
    ShowsParts(text, arrow, "<-", body);
    ShowsChar(text, arrow, "<-", 0);
    ShowsChar(text, arrow, "<-", 1);
  }

  lemma OneRule(text: string, pos: nat, name: nat, arrow: nat, e: Expr, end: nat, rest: seq<Rule>, stop: nat)
    requires pos < name <= arrow && arrow + 1 < |text| && end <= |text|
    requires (IsAlpha(text[pos]) || text[pos] == '_') && IdentifierEnd(text, pos) == name
    requires SkipInline(text, name) == arrow && text[arrow] == '<' && text[arrow + 1] == '-'
    requires ReadChoice(text, arrow + 2) == Ok(e, end)
    requires ReadRules(text, end) == Ok(rest, stop)
    ensures ReadRules(text, pos) == Ok([Rule(text[pos..name], e)] + rest, stop)
  {
    hide ReadRules, ReadChoice, SkipInline, IdentifierEnd;
    RuleStarts(text, pos);
    RuleStep(text, pos);
  }

  lemma HeadReads(r: RuleLayout, text: string, pos: nat)
    requires IsIdentifier(r.name) && IsGap(r.gap) && Shows(text, pos, r.name) && Shows(text, pos + |r.name|, r.gap)
    requires pos + |r.name| + |r.gap| < |text| && text[pos + |r.name| + |r.gap|] == '<'
    ensures (IsAlpha(text[pos]) || text[pos] == '_') && IdentifierEnd(text, pos) == pos + |r.name|
    ensures text[pos..pos + |r.name|] == r.name && SkipInline(text, pos + |r.name|) == pos + |r.name| + |r.gap|
  {
    var name, arrow := pos + |r.name|, pos + |r.name| + |r.gap|;
    GapReads(text, name, r.gap);
    NothingToSkip(text, arrow);
    hide SkipInline, IdentifierEnd;
    if r.gap != "" {
      ShowsChar(text, name, r.gap, 0);
    }
    NameReads(text, pos, r.name);
  }

  /** One rule in front of what is read behind it. */
  lemma RuleReads(r: RuleLayout, text: string, pos: nat, rest: seq<Rule>)
    requires FitsRule(r) && Shows(text, pos, RuleText(r)) && StopsChoice(text, pos + |RuleText(r)|)
    requires ReadRules(text, pos + |RuleText(r)|) == Ok(rest, |text|)
    ensures ReadRules(text, pos) == Ok([RuleMeaning(r)] + rest, |text|)
  {
    hide ReadRules, ReadChoice, SkipInline, IdentifierEnd, AlternativesText, AlternativeMeanings, FitsAlternatives, FitsPieces,
         RuleText, Shows, StopsChoice, IsGap, ChoiceOf;
    var name, arrow := pos + |r.name|, pos + |r.name| + |r.gap|;
    RuleShows(r, text, pos);
    HeadReads(r, text, pos);
    ChoiceReads(r.alternatives, text, arrow + 2);
    OneRule(text, pos, name, arrow, ChoiceOf(AlternativeMeanings(r.alternatives, 0)), pos + |RuleText(r)|, rest, |text|);
  }

  lemma {:induction false} RulesRead(l: Layout, i: nat, text: string, pos: nat)
    requires Fits(l) && i <= |l.rules| && Shows(text, pos, RulesText(l, i)) && pos + |RulesText(l, i)| == |text|
    ensures ReadRules(text, pos) == Ok(RuleMeanings(l, i), |text|)
    decreases |l.rules| - i
  {
    hide ReadRules, RuleText, RuleMeaning, PiecesText, FitsPieces, FitsRule, StopsChoice;
    if i == |l.rules| {
      PiecesRead(l.after, 0, true, text, pos);
      RuleStep(text, |text|);
    } else {
      var r, rest := l.rules[i], RulesText(l, i + 1);
      var filler := PiecesText(r.before, 0);
      var start := pos + |filler|;
      var end := start + |RuleText(r)|;
      RuleFits(l, i);
      ShowsParts(text, pos, filler, RuleText(r) + rest);
      ShowsParts(text, start, RuleText(r), rest);
      PiecesRead(r.before, 0, false, text, pos);
      RulesRead(l, i + 1, text, end);
      RuleEnds(l, i + 1, text, end);
      RuleReads(r, text, start, RuleMeanings(l, i + 1));
    }
  }

  lemma RuleFits(l: Layout, i: nat)
    requires Fits(l) && i < |l.rules|
    ensures FitsRule(l.rules[i]) && FitsPieces(l.rules[i].before, false)
  {
    assert FitsRule(l.rules[i]);
    hide FitsAlternatives, FitsPieces;
  }

  lemma RuleEnds(l: Layout, i: nat, text: string, pos: nat)
    requires Fits(l) && 0 < i <= |l.rules| && Shows(text, pos, RulesText(l, i)) && pos + |RulesText(l, i)| == |text|
    ensures StopsChoice(text, pos)
  {
    hide FitsRule, PiecesText, FitsPieces;
    if i < |l.rules| {
      ShowsParts(text, pos, PiecesText(l.rules[i].before, 0), RuleText(l.rules[i]) + RulesText(l, i + 1));
      FillerStops(l.rules[i].before, text, pos);
    } else if l.after != [] {
      FillerStops(l.after, text, pos);
    } else {
      NoPieces();
    }
  }

  lemma NoPieces()
    ensures PiecesText([], 0) == ""
  {
  }

  /** However the rules are laid out, compiling the text gives them back. */
  lemma LayoutReads(l: Layout)
    requires Fits(l)
    ensures ReadGrammar(Text(l)) == Ok(Meaning(l), |Text(l)|)
  {
    RulesRead(l, 0, Text(l), 0);
    hide ReadRules, RulesText;
    assert Meaning(l) == [RuleMeaning(l.rules[0])] + RuleMeanings(l, 1);
  }
}
