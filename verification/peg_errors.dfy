/** Grammar texts that do not compile: what the error message says is so. */
module PegErrors {
  import opened PegSyntax
  import opened PegGrammar
  import opened PegLayouts
  import opened PegRoundTrip
  import opened PegTexts
  import PegSemantics

  /** The error says something true of the text: what stands at its offset, or what is not
      closed before the text ends. */
  ghost predicate IsTrueOf(error: GrammarError, text: string) {
    match error
    case ExpectedRuleName(offset) =>
      offset < |text| && !IsAlpha(text[offset]) && text[offset] != '_' && text[offset] != '#' && !IsSpace(text[offset])
    case ExpectedArrow(name) => IsIdentifier(name) && exists p: nat :: NamedAt(text, p, name)
    case EmptySequence(offset) => offset <= |text| && StopsSequence(text, offset)
    case ExpectedClose(offset) => offset <= |text| && StopsChoice(text, offset) && (offset < |text| ==> text[offset] != ')')
    case UnterminatedLiteral => OpenToTheEnd(text, '\'', '\'') || OpenToTheEnd(text, '"', '"')
    case UnterminatedClass => OpenToTheEnd(text, '[', ']')
    case UnexpectedCharacter(c, offset) =>
      && offset <= |text| && c == (if offset < |text| then text[offset] else '\0')
      && !IsAlpha(c) && c !in "_('\"[.&!"
    case EmptyGrammar => exists pieces :: FitsPieces(pieces, true) && text == PiecesText(pieces, 0)
  }

  /** A name with no arrow behind it. */
  ghost predicate NamedAt(text: string, p: nat, name: string) {
    && Shows(text, p, name)
    && var arrow := SkipInline(text, p + |name|); !Shows(text, arrow, "<-")
  }

  ghost predicate OpenToTheEnd(text: string, open: char, close: char) {
    exists p: nat :: p < |text| && text[p] == open && forall k :: p < k < |text| ==> text[k] != close
  }

  lemma {:induction false} TermError(text: string, pos: nat)
    requires pos <= |text| && ReadTerm(text, pos).Err? && CharAt(text, pos) != '&' && CharAt(text, pos) != '!'
    ensures IsTrueOf(ReadTerm(text, pos).error, text)
    decreases |text| - pos, 0
  {
    var c := CharAt(text, pos);
    if c == '(' {
      hide ReadAlternatives, Find, IdentifierEnd;
      if ReadChoice(text, pos + 1).Err? {
        AlternativesError(text, pos + 1);
      } else {
        var alternatives := AlternativesFound(text, pos + 1);
        NothingToSkip(text, ReadChoice(text, pos + 1).pos);
      }
    } else {
      hide ReadChoice;
      if c == '\'' || c == '"' || c == '[' {
        assert pos < |text| && text[pos] == c;
      }
    }
  }

  lemma {:induction false} PrefixError(text: string, pos: nat)
    requires pos <= |text| && ReadPrefix(text, pos).Err?
    ensures IsTrueOf(ReadPrefix(text, pos).error, text)
    decreases |text| - pos, 1
  {
    hide ReadTerm, IsTrueOf;
    if CharAt(text, pos) == '&' || CharAt(text, pos) == '!' {
      PrefixError(text, pos + 1);
    } else {
      TermError(text, pos);
    }
  }

  lemma {:induction false} ElementsError(text: string, pos: nat)
    requires pos <= |text| && ReadElements(text, pos).Err?
    ensures IsTrueOf(ReadElements(text, pos).error, text)
    decreases |text| - pos, 2
  {
    var p := SkipInline(text, pos);
    hide ReadPrefix, SkipInline, IsTrueOf;
    if ReadPrefix(text, p).Err? {
      PrefixError(text, p);
    } else {
      ElementsError(text, ReadPrefix(text, p).pos);
    }
  }

  lemma {:induction false} SequenceError(text: string, pos: nat)
    requires pos <= |text| && ReadSequence(text, pos).Err?
    ensures IsTrueOf(ReadSequence(text, pos).error, text)
    decreases |text| - pos, 3
  {
    if ReadElements(text, pos).Err? {
      ElementsError(text, pos);
    } else {
      var es, gap := ElementsFound(text, pos);
    }
  }

  lemma {:induction false} AlternativesError(text: string, pos: nat)
    requires pos <= |text| && ReadAlternatives(text, pos).Err?
    ensures IsTrueOf(ReadAlternatives(text, pos).error, text)
    decreases |text| - pos, 4
  {
    hide ReadSequence, SkipInline, IsTrueOf;
    if ReadSequence(text, pos).Err? {
      SequenceError(text, pos);
    } else {
      AlternativesError(text, SkipInline(text, ReadSequence(text, pos).pos) + 1);
    }
  }

  lemma {:induction false} RulesError(text: string, pos: nat)
    requires pos <= |text| && ReadRules(text, pos).Err?
    ensures IsTrueOf(ReadRules(text, pos).error, text)
    decreases |text| - pos, 1
  {
    hide ReadRules, Find, IsTrueOf;
    if pos == |text| {
      EmptyTail(text);
    } else if IsSpace(text[pos]) {
      SpaceBeforeRules(text, pos);
      RulesError(text, pos + 1);
    } else if text[pos] == '#' {
      CommentBeforeRules(text, pos, Find(text, pos, '\n'));
      RulesError(text, Find(text, pos, '\n'));
    } else if IsAlpha(text[pos]) || text[pos] == '_' {
      RuleError(text, pos);
    } else {
      NoRuleStarts(text, pos);
    }
  }

  lemma NoRuleStarts(text: string, pos: nat)
    requires pos < |text| && !IsSpace(text[pos]) && text[pos] != '#' && !IsAlpha(text[pos]) && text[pos] != '_'
    ensures ReadRules(text, pos) == Err(ExpectedRuleName(pos)) && IsTrueOf(ExpectedRuleName(pos), text)
  {
    assert PegSemantics.SkipWhitespace(text, pos) == pos;
    RuleStep(text, pos);
    hide ReadRules;
  }

  lemma {:induction false} RuleError(text: string, pos: nat)
    requires pos < |text| && (IsAlpha(text[pos]) || text[pos] == '_') && ReadRules(text, pos).Err?
    ensures IsTrueOf(ReadRules(text, pos).error, text)
    decreases |text| - pos, 0
  {
    hide *;
    RuleResult(text, pos);
    var arrow := SkipInline(text, IdentifierEnd(text, pos));
    if arrow + 1 >= |text| || text[arrow] != '<' || text[arrow + 1] != '-' {
      NameWithoutArrow(text, pos);
    } else if ReadChoice(text, arrow + 2).Err? {
      ChoiceError(text, arrow + 2);
    } else {
      RulesError(text, ReadChoice(text, arrow + 2).pos);
    }
  }

  lemma {:induction false} ChoiceError(text: string, pos: nat)
    requires pos <= |text| && ReadChoice(text, pos).Err?
    ensures IsTrueOf(ReadChoice(text, pos).error, text)
    decreases |text| - pos, 5
  {
    AlternativesError(text, pos);
    hide ReadAlternatives, IsTrueOf;
  }

  /** Which error a rule ends in. */
  lemma RuleResult(text: string, pos: nat)
    requires pos < |text| && (IsAlpha(text[pos]) || text[pos] == '_') && ReadRules(text, pos).Err?
    ensures var end := IdentifierEnd(text, pos); var arrow := SkipInline(text, end);
      if arrow + 1 >= |text| || text[arrow] != '<' || text[arrow + 1] != '-' then
        ReadRules(text, pos) == Err(ExpectedArrow(text[pos..end]))
      else
        var e := ReadChoice(text, arrow + 2);
        if e.Err? then ReadRules(text, pos) == Err(e.error)
        else pos < e.pos <= |text| && ReadRules(text, e.pos).Err? && ReadRules(text, pos) == ReadRules(text, e.pos)
  {
    RuleStarts(text, pos);
    RuleStep(text, pos);
    hide ReadRules, ReadChoice, SkipInline, IdentifierEnd, PegSemantics.SkipWhitespace;
  }

  lemma NameWithoutArrow(text: string, pos: nat)
    requires pos < |text| && (IsAlpha(text[pos]) || text[pos] == '_')
    requires var arrow := SkipInline(text, IdentifierEnd(text, pos));
      arrow + 1 >= |text| || text[arrow] != '<' || text[arrow + 1] != '-'
    ensures IsTrueOf(ExpectedArrow(text[pos..IdentifierEnd(text, pos)]), text)
  {
    hide SkipInline;
    var end := IdentifierEnd(text, pos);
    ShowsBetween(text, pos, end);
    NoArrow(text, SkipInline(text, end));
    assert NamedAt(text, pos, text[pos..end]);
  }

  lemma NoArrow(text: string, arrow: nat)
    requires arrow + 1 >= |text| || text[arrow] != '<' || text[arrow + 1] != '-'
    ensures !Shows(text, arrow, "<-")
  {
    if Shows(text, arrow, "<-") {
      ShowsChar(text, arrow, "<-", 0);
      ShowsChar(text, arrow, "<-", 1);
    }
  }

  /** Every error message is true of the text, and a text without rules is one of comments and
      whitespace. */
  lemma ErrorsAreTrue(text: string)
    requires ReadGrammar(text).Err?
    ensures IsTrueOf(ReadGrammar(text).error, text)
  {
    if ReadRules(text, 0).Err? {
      RulesError(text, 0);
    } else {
      var l := RulesFound(text, 0);
      ShowsSlice(text, 0, Text(l));
      hide ReadRules;
      assert text[0..|text|] == text;
      assert l.rules == [] && text == PiecesText(l.after, 0);
    }
  }
}
