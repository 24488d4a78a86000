/** The compiler from grammar text to rules: a recursive-descent parser whose loops advance
    one position. The functions say what is read at a position; the methods are the loops. */
module PegGrammar {
  import opened PegSyntax
  import PegSemantics

  datatype GrammarError =
    | ExpectedRuleName(offset: nat)
    | ExpectedArrow(rule: string)
    | EmptySequence(offset: nat)
    | ExpectedClose(offset: nat)
    | UnterminatedLiteral
    | UnterminatedClass
    | UnexpectedCharacter(c: char, offset: nat)
    | EmptyGrammar

  datatype Reading<+T> = Ok(value: T, pos: nat) | Err(error: GrammarError)

  // ----- scanning

  predicate IsInline(c: char) { c == ' ' || c == '\t' || c == '\r' }

  predicate EndsSequence(c: char) { c == '\n' || c == '/' || c == ')' || c == '#' }

  /** The character at pos; the string's terminating NUL at its end. */
  function CharAt(text: string, pos: nat): char
    requires pos <= |text|
  {
    if pos < |text| then text[pos] else '\0'
  }

  function SkipInline(text: string, pos: nat): (r: nat)
    requires pos <= |text|
    ensures pos <= r <= |text|
    ensures r < |text| ==> !IsInline(text[r])
    decreases |text| - pos
  {
    if pos < |text| && IsInline(text[pos]) then SkipInline(text, pos + 1) else pos
  }

  /** The end of the run of identifier characters that starts at pos. */
  function IdentifierEnd(text: string, pos: nat): (r: nat)
    requires pos <= |text|
    ensures pos <= r <= |text|
    ensures forall i :: pos <= i < r ==> IsIdentifierChar(text[i])
    ensures r < |text| ==> !IsIdentifierChar(text[r])
    decreases |text| - pos
  {
    if pos < |text| && IsIdentifierChar(text[pos]) then IdentifierEnd(text, pos + 1) else pos
  }

  /** The first c at or after pos, or the end of the text. */
  function Find(text: string, pos: nat, c: char): (r: nat)
    requires pos <= |text|
    ensures pos <= r <= |text|
    ensures forall i :: pos <= i < r ==> text[i] != c
    ensures r < |text| ==> text[r] == c
    decreases |text| - pos
  {
    if pos < |text| && text[pos] != c then Find(text, pos + 1, c) else pos
  }

  // ----- the trees that grammar text can denote

  predicate IsIdentifier(s: string) {
    s != [] && (IsAlpha(s[0]) || s[0] == '_') && forall i :: 0 <= i < |s| ==> IsIdentifierChar(s[i])
  }

  predicate Printable(e: Expr) {
    match e
    case Literal(text) => '\'' !in text || '"' !in text
    case CharClass(spec) => ']' !in spec
    case Dot => true
    case Reference(name) => IsIdentifier(name)
    case Sequence(children) => |children| >= 2 && forall i :: 0 <= i < |children| ==> Printable(children[i])
    case Choice(children) => |children| >= 2 && forall i :: 0 <= i < |children| ==> Printable(children[i])
    case AndPredicate(inner) => Printable(inner)
    case NotPredicate(inner) => Printable(inner)
    case Optional(inner) => Printable(inner)
    case Star(inner) => Printable(inner)
    case Plus(inner) => Printable(inner)
  }

  predicate PrintableRules(rules: seq<Rule>) {
    forall i :: 0 <= i < |rules| ==> IsIdentifier(rules[i].name) && Printable(rules[i].expression)
  }

  ghost predicate Advances(r: Reading<Expr>, text: string, pos: nat) {
    r.Ok? ==> pos < r.pos <= |text| && Printable(r.value)
  }

  // ----- what is read at a position

  function ReadTerm(text: string, pos: nat): (r: Reading<Expr>)
    requires pos <= |text|
    ensures Advances(r, text, pos)
    decreases |text| - pos, 0
  {
    var c := CharAt(text, pos);
    if c == '(' then
      match ReadChoice(text, pos + 1)
      case Err(error) => Err(error)
      case Ok(inner, p) =>
        var close := SkipInline(text, p);
        if close < |text| && text[close] == ')' then Ok(inner, close + 1) else Err(ExpectedClose(close))
    else if c == '\'' || c == '"' then
      var end := Find(text, pos + 1, c);
      if end == |text| then Err(UnterminatedLiteral) else Ok(Literal(text[pos + 1..end]), end + 1)
    else if c == '[' then
      var end := Find(text, pos + 1, ']');
      if end == |text| then Err(UnterminatedClass) else Ok(CharClass(text[pos + 1..end]), end + 1)
    else if c == '.' then Ok(Dot, pos + 1)
    else if IsAlpha(c) || c == '_' then
      var end := IdentifierEnd(text, pos);
      Ok(Reference(text[pos..end]), end)
    else Err(UnexpectedCharacter(c, pos))
  }

  function ReadSuffix(text: string, pos: nat): (r: Reading<Expr>)
    requires pos <= |text|
    ensures Advances(r, text, pos)
    decreases |text| - pos, 1
  {
    match ReadTerm(text, pos)
    case Err(error) => Err(error)
    case Ok(term, p) =>
      if p < |text| && text[p] == '?' then Ok(Optional(term), p + 1)
      else if p < |text| && text[p] == '*' then Ok(Star(term), p + 1)
      else if p < |text| && text[p] == '+' then Ok(Plus(term), p + 1)
      else Ok(term, p)
  }

  function ReadPrefix(text: string, pos: nat): (r: Reading<Expr>)
    requires pos <= |text|
    ensures Advances(r, text, pos)
    decreases |text| - pos, 2
  {
    var c := CharAt(text, pos);
    if c == '&' || c == '!' then
      match ReadPrefix(text, pos + 1)
      case Err(error) => Err(error)
      case Ok(inner, p) => Ok(if c == '&' then AndPredicate(inner) else NotPredicate(inner), p)
    else ReadSuffix(text, pos)
  }

  /** The elements up to the end of the sequence. */
  function ReadElements(text: string, pos: nat): (r: Reading<seq<Expr>>)
    requires pos <= |text|
    ensures r.Ok? ==> pos <= r.pos <= |text| && (r.value != [] ==> pos < r.pos)
    ensures r.Ok? ==> forall i :: 0 <= i < |r.value| ==> Printable(r.value[i])
    decreases |text| - pos, 3
  {
    var p := SkipInline(text, pos);
    if p >= |text| || EndsSequence(text[p]) then Ok([], p)
    else
      match ReadPrefix(text, p)
      case Err(error) => Err(error)
      case Ok(first, p1) =>
        match ReadElements(text, p1)
        case Err(error) => Err(error)
        case Ok(rest, p2) => Ok([first] + rest, p2)
  }

  function ReadSequence(text: string, pos: nat): (r: Reading<Expr>)
    requires pos <= |text|
    ensures Advances(r, text, pos)
    decreases |text| - pos, 4
  {
    match ReadElements(text, pos)
    case Err(error) => Err(error)
    case Ok(elements, p) =>
      if elements == [] then Err(EmptySequence(p))
      else Ok(if |elements| == 1 then elements[0] else Sequence(elements), p)
  }

  function ReadAlternatives(text: string, pos: nat): (r: Reading<seq<Expr>>)
    requires pos <= |text|
    ensures r.Ok? ==> pos < r.pos <= |text| && r.value != []
    ensures r.Ok? ==> forall i :: 0 <= i < |r.value| ==> Printable(r.value[i])
    decreases |text| - pos, 5
  {
    match ReadSequence(text, pos)
    case Err(error) => Err(error)
    case Ok(first, p) =>
      var q := SkipInline(text, p);
      if q < |text| && text[q] == '/' then
        match ReadAlternatives(text, q + 1)
        case Err(error) => Err(error)
        case Ok(rest, end) => Ok([first] + rest, end)
      else Ok([first], q)
  }

  function ReadChoice(text: string, pos: nat): (r: Reading<Expr>)
    requires pos <= |text|
    ensures Advances(r, text, pos)
    decreases |text| - pos, 6
  {
    match ReadAlternatives(text, pos)
    case Err(error) => Err(error)
    case Ok(alternatives, p) => Ok(if |alternatives| == 1 then alternatives[0] else Choice(alternatives), p)
  }

  /** The rules from pos on. A comment runs to the end of its line. */
  function ReadRules(text: string, pos: nat): (r: Reading<seq<Rule>>)
    requires pos <= |text|
    ensures r.Ok? ==> PrintableRules(r.value)
    decreases |text| - pos
  {
    var p := PegSemantics.SkipWhitespace(text, pos);
    if p == |text| then Ok([], p)
    else if text[p] == '#' then ReadRules(text, Find(text, p, '\n'))
    else if !IsAlpha(text[p]) && text[p] != '_' then Err(ExpectedRuleName(p))
    else
      var end := IdentifierEnd(text, p);
      var name := text[p..end];
      var arrow := SkipInline(text, end);
      if arrow + 1 >= |text| || text[arrow] != '<' || text[arrow + 1] != '-' then Err(ExpectedArrow(name))
      else
        match ReadChoice(text, arrow + 2)
        case Err(error) => Err(error)
        case Ok(e, p1) =>
          match ReadRules(text, p1)
          case Err(error) => Err(error)
          case Ok(rest, p2) => Ok([Rule(name, e)] + rest, p2)
  }

  /** What the Parser constructor makes of a grammar text. */
  function ReadGrammar(text: string): (r: Reading<seq<Rule>>)
    ensures r.Ok? ==> PrintableRules(r.value) && r.value != []
  {
    match ReadRules(text, 0)
    case Err(error) => Err(error)
    case Ok(rules, p) => if rules == [] then Err(EmptyGrammar) else Ok(rules, p)
  }

  // ----- the parser itself

  method SkipInlineWhitespace(text: string, pos0: nat) returns (pos: nat)
    requires pos0 <= |text|
    ensures pos == SkipInline(text, pos0)
  {
    pos := pos0;
    while pos < |text| && IsInline(text[pos])
      invariant pos0 <= pos <= |text| && SkipInline(text, pos0) == SkipInline(text, pos)
    {
      pos := pos + 1;
    }
  }

  method ScanIdentifier(text: string, pos0: nat) returns (pos: nat)
    requires pos0 <= |text|
    ensures pos == IdentifierEnd(text, pos0)
  {
    pos := pos0;
    while pos < |text| && IsIdentifierChar(text[pos])
      invariant pos0 <= pos <= |text| && IdentifierEnd(text, pos0) == IdentifierEnd(text, pos)
    {
      pos := pos + 1;
    }
  }

  method ScanTo(text: string, pos0: nat, c: char) returns (pos: nat)
    requires pos0 <= |text|
    ensures pos == Find(text, pos0, c)
  {
    pos := pos0;
    while pos < |text| && text[pos] != c
      invariant pos0 <= pos <= |text| && Find(text, pos0, c) == Find(text, pos, c)
    {
      pos := pos + 1;
    }
  }

  method ParseTerm(text: string, pos0: nat) returns (r: Reading<Expr>)
    requires pos0 <= |text|
    ensures r == ReadTerm(text, pos0)
    decreases |text| - pos0, 0
  {
    var pos := pos0;
    var c := CharAt(text, pos);
    if c == '(' {
      pos := pos + 1;
      var inner := ParseChoice(text, pos);
      if inner.Err? {
        return inner;
      }
      pos := SkipInlineWhitespace(text, inner.pos);
      if pos >= |text| || text[pos] != ')' {
        return Err(ExpectedClose(pos));
      }
      return Ok(inner.value, pos + 1);
    }
    if c == '\'' || c == '"' {
      pos := pos + 1;
      var start := pos;
      pos := ScanTo(text, pos, c);
      if pos >= |text| {
        return Err(UnterminatedLiteral);
      }
      return Ok(Literal(text[start..pos]), pos + 1);
    }
    if c == '[' {
      pos := pos + 1;
      var start := pos;
      pos := ScanTo(text, pos, ']');
      if pos >= |text| {
        return Err(UnterminatedClass);
      }
      return Ok(CharClass(text[start..pos]), pos + 1);
    }
    if c == '.' {
      return Ok(Dot, pos + 1);
    }
    if IsAlpha(c) || c == '_' {
      var start := pos;
      pos := ScanIdentifier(text, pos);
      return Ok(Reference(text[start..pos]), pos);
    }
    return Err(UnexpectedCharacter(c, pos));
  }

  method ParseSuffix(text: string, pos0: nat) returns (r: Reading<Expr>)
    requires pos0 <= |text|
    ensures r == ReadSuffix(text, pos0)
    decreases |text| - pos0, 1
  {
    r := ParseTerm(text, pos0);
    if r.Err? {
      return;
    }
    var pos := r.pos;
    if pos < |text| && (text[pos] == '?' || text[pos] == '*' || text[pos] == '+') {
      var op := text[pos];
      pos := pos + 1;
      if op == '?' {
        r := Ok(Optional(r.value), pos);
      } else if op == '*' {
        r := Ok(Star(r.value), pos);
      } else {
        r := Ok(Plus(r.value), pos);
      }
    }
  }

  method ParsePrefix(text: string, pos0: nat) returns (r: Reading<Expr>)
    requires pos0 <= |text|
    ensures r == ReadPrefix(text, pos0)
    decreases |text| - pos0, 2
  {
    var op := CharAt(text, pos0);
    if op == '&' || op == '!' {
      r := ParsePrefix(text, pos0 + 1);
      if r.Ok? {
        r := Ok(if op == '&' then AndPredicate(r.value) else NotPredicate(r.value), r.pos);
      }
      return;
    }
    r := ParseSuffix(text, pos0);
  }

  /** Put what was read earlier in front of what is read next. */
  function Prepend<T>(earlier: seq<T>, r: Reading<seq<T>>): (all: Reading<seq<T>>)
    ensures earlier == [] || r.Err? ==> all == r
    ensures r.Ok? && r.value == [] ==> all == Ok(earlier, r.pos)
  {
    match r
    case Err(error) => r
    case Ok(later, p) =>
      assert earlier == [] ==> earlier + later == later;
      assert later == [] ==> earlier + later == earlier;
      Ok(earlier + later, p)
  }

  lemma PrependMore<T>(earlier: seq<T>, one: T, r: Reading<seq<T>>)
    ensures Prepend(earlier, Prepend([one], r)) == Prepend(earlier + [one], r)
  {
    if r.Ok? {
      assert earlier + ([one] + r.value) == (earlier + [one]) + r.value;
    }
  }

  method ParseSequence(text: string, pos0: nat) returns (r: Reading<Expr>)
    requires pos0 <= |text|
    ensures r == ReadSequence(text, pos0)
    decreases |text| - pos0, 4
  {
    var pos := pos0;
    var elements: seq<Expr> := [];
    while true
      invariant pos0 <= pos <= |text|
      invariant ReadElements(text, pos0) == Prepend(elements, ReadElements(text, pos))
      decreases |text| - pos
    {
      ghost var start := pos;
      pos := SkipInlineWhitespace(text, pos);
      if pos >= |text| || EndsSequence(text[pos]) {
        assert ReadElements(text, pos0) == Ok(elements, pos);
        break;
      }
      var element := ParsePrefix(text, pos);
      if element.Err? {
        return element;
      }
      PrependMore(elements, element.value, ReadElements(text, element.pos));
      elements := elements + [element.value];
      pos := element.pos;
    }
    if elements == [] {
      return Err(EmptySequence(pos));
    }
    if |elements| == 1 {
      return Ok(elements[0], pos);
    }
    return Ok(Sequence(elements), pos);
  }

  method ParseChoice(text: string, pos0: nat) returns (r: Reading<Expr>)
    requires pos0 <= |text|
    ensures r == ReadChoice(text, pos0)
    decreases |text| - pos0, 6
  {
    r := ParseSequence(text, pos0);
    if r.Err? {
      return;
    }
    var alternatives, pos := [r.value], r.pos;
    ghost var last, from := r.value, pos0;
    ghost var before: seq<Expr> := [];
    while true
      invariant pos0 <= from < pos <= |text| && alternatives == before + [last]
      invariant ReadSequence(text, from) == Ok(last, pos)
      invariant ReadAlternatives(text, pos0) == Prepend(before, ReadAlternatives(text, from))
      decreases |text| - pos
    {
      pos := SkipInlineWhitespace(text, pos);
      if pos < |text| && text[pos] == '/' {
        pos := pos + 1;
        var next := ParseSequence(text, pos);
        PrependMore(before, last, ReadAlternatives(text, pos));
        if next.Err? {
          return next;
        }
        before, last, from := before + [last], next.value, pos;
        alternatives := alternatives + [next.value];
        pos := next.pos;
      } else {
        break;
      }
    }
    if |alternatives| == 1 {
      return Ok(alternatives[0], pos);
    }
    return Ok(Choice(alternatives), pos);
  }

  lemma RuleStep(text: string, pos: nat)
    requires pos <= |text|
    ensures var p := PegSemantics.SkipWhitespace(text, pos);
      ReadRules(text, pos) ==
        if p == |text| then Ok([], p)
        else if text[p] == '#' then ReadRules(text, Find(text, p, '\n'))
        else if !IsAlpha(text[p]) && text[p] != '_' then Err(ExpectedRuleName(p))
        else
          var end := IdentifierEnd(text, p);
          var arrow := SkipInline(text, end);
          if arrow + 1 >= |text| || text[arrow] != '<' || text[arrow + 1] != '-' then Err(ExpectedArrow(text[p..end]))
          else
            match ReadChoice(text, arrow + 2)
            case Err(error) => Err(error)
            case Ok(e, p1) => Prepend([Rule(text[p..end], e)], ReadRules(text, p1))
  {
  }

  /** Compiles a grammar text, as the Parser constructor does. */
  method ParseGrammar(text: string) returns (r: Reading<seq<Rule>>)
    ensures r == ReadGrammar(text)
  {
    hide ReadRules, ReadChoice, Find, IdentifierEnd, SkipInline, Prepend;
    var rules: seq<Rule> := [];
    var pos := 0;
    while pos < |text|
      invariant pos <= |text|
      invariant ReadRules(text, 0) == Prepend(rules, ReadRules(text, pos))
      decreases |text| - pos
    {
      RuleStep(text, pos);
      pos := PegSemantics.SkipSpaces(text, pos);
      if pos >= |text| {
        break;
      }
      if text[pos] == '#' {
        pos := ScanTo(text, pos, '\n');
        continue;
      }
      if !IsAlpha(text[pos]) && text[pos] != '_' {
        return Err(ExpectedRuleName(pos));
      }
      var nameStart := pos;
      pos := ScanIdentifier(text, pos);
      var name := text[nameStart..pos];
      pos := SkipInlineWhitespace(text, pos);
      if pos + 1 >= |text| || text[pos] != '<' || text[pos + 1] != '-' {
        return Err(ExpectedArrow(name));
      }
      var expression := ParseChoice(text, pos + 2);
      if expression.Err? {
        return Err(expression.error);
      }
      PrependMore(rules, Rule(name, expression.value), ReadRules(text, expression.pos));
      rules := rules + [Rule(name, expression.value)];
      pos := expression.pos;
    }
    RuleStep(text, |text|);
    assert ReadRules(text, 0) == Ok(rules, |text|);
    if rules == [] {
      return Err(EmptyGrammar);
    }
    return Ok(rules, |text|);
  }
}
