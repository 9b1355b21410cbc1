/**
 * The regex-text builder of the `io.github.ricoapon.readableregex` package:
 * a growing buffer, a multiline flag that line anchors switch on for good,
 * and the ordered list of capture-group names (None for an unnamed group).
 * Every operation validates its arguments, then appends one fragment.
 */
module ReadableRegex {
  import opened RegexText
  import opened Operations

  /** What `buildWithFlags` hands to the regex compiler, with the group list. */
  datatype Pattern = Pattern(text: string, flags: set<Flag>, groups: seq<Option<string>>)

  /**
   * The class text built by `range` (`[`) and `notInRange` (`[^`): one
   * `lo-hi` per consecutive pair of boundaries, appended two boundaries at
   * a time.
   */
  method RangeExpression(negated: bool, boundaries: seq<char>) returns (expression: string)
    requires |boundaries| % 2 == 0
    ensures expression == RangeFragment(negated, boundaries)
  {
    var open := if negated then "[^" else "[";
    expression := open;
    var i := 0;
    while i < |boundaries|
      invariant 0 <= i <= |boundaries| && i % 2 == 0
      invariant expression == open + RangeBody(boundaries[..i])
    {
      RangeBodyStep(boundaries, i);
      var pair := [boundaries[i], '-', boundaries[i + 1]];
      AppendAssociative(open, RangeBody(boundaries[..i]), pair);
      expression := expression + pair;
      i := i + 2;
    }
    assert boundaries[..i] == boundaries;
    expression := expression + "]";
  }

  class Builder {
    /** The regular expression assembled so far. */
    var buf: string
    /** Set by `startOfLine`/`endOfLine`; never reset. */
    var multiline: bool
    /** One entry per capture group opened, in order; None for an unnamed group. */
    var groups: seq<Option<string>>
    /** The successful calls so far, oldest first. */
    ghost var log: seq<Op>

    /** Buffer, group list and multiline flag are exactly what the calls so far produce. */
    ghost predicate Valid()
      reads this
    {
      && AllAdmissible(log)
      && buf == Render(log)
      && groups == GroupEntries(log)
      && multiline == UsesLineAnchors(log)
    }

    constructor ()
      ensures Valid() && log == []
      ensures buf == "" && !multiline && groups == []
    {
      buf := "";
      multiline := false;
      groups := [];
      log := [];
    }

    /**
     * Compiles nothing (compilation is the engine's): returns the text, the
     * requested flags OR-ed together plus MULTILINE when a line anchor was
     * used, and the group list.
     */
    method BuildWithFlags(requested: seq<Flag>) returns (p: Pattern)
      ensures p.text == buf && p.groups == groups
      ensures Multiline in p.flags <==> multiline || Multiline in requested
      ensures forall f :: f != Multiline ==> (f in p.flags <==> f in requested)
    {
      var flags := CombineFlags(requested);
      if multiline && Multiline !in flags {
        flags := flags + {Multiline};
      }
      p := Pattern(buf, flags, groups);
    }

    /** Appends `regex`, the fragment of `op`, after the caller has done the group and flag bookkeeping of `op`. */
    method AddRegex(regex: string, ghost op: Op)
      requires AllAdmissible(log) && buf == Render(log)
      requires Admissible(op) && regex == Fragment(op)
      requires groups == GroupEntries(log) + GroupEntry(op)
      requires multiline == (UsesLineAnchors(log) || IsLineAnchor(op))
      modifies this
      ensures Valid()
      ensures buf == old(buf) + regex && log == old(log) + [op]
      ensures groups == old(groups) && multiline == old(multiline)
    {
      LogSnoc(log, op);
      buf := buf + regex;
      log := log + [op];
    }

    method RegexFromString(regex: Option<string>) returns (r: Outcome)
      requires Valid()
      modifies this
      ensures Valid() && groups == old(groups) && multiline == old(multiline)
      ensures r == (if regex.None? then Fail(NullArgument) else Ok)
      ensures r.Ok? ==> buf == old(buf) + regex.value && log == old(log) + [Op.RegexFromString(regex.value)]
      ensures r.Fail? ==> buf == old(buf) && log == old(log)
    {
      if regex.None? {
        return Fail(NullArgument);
      }
      AddRegex(regex.value, Op.RegexFromString(regex.value));
      r := Ok;
    }

    /** Embeds an already built pattern, given by its text, as a non-capturing group. */
    method Add(pattern: Option<string>) returns (r: Outcome)
      requires Valid()
      modifies this
      ensures Valid() && groups == old(groups) && multiline == old(multiline)
      ensures r == (if pattern.None? then Fail(NullArgument) else Ok)
      ensures r.Ok? ==> buf == old(buf) + ("(?:" + pattern.value + ")") && log == old(log) + [Op.Add(pattern.value)]
      ensures r.Fail? ==> buf == old(buf) && log == old(log)
    {
      if pattern.None? {
        return Fail(NullArgument);
      }
      AddRegex("(?:" + pattern.value + ")", Op.Add(pattern.value));
      r := Ok;
    }

    method Literal(value: Option<string>) returns (r: Outcome)
      requires Valid()
      modifies this
      ensures Valid() && groups == old(groups) && multiline == old(multiline)
      ensures r == (if value.None? then Fail(NullArgument) else Ok)
      ensures r.Ok? ==> buf == old(buf) + ("(?:\\Q" + value.value + "\\E)") && log == old(log) + [Op.Literal(value.value)]
      ensures r.Fail? ==> buf == old(buf) && log == old(log)
    {
      if value.None? {
        return Fail(NullArgument);
      }
      AddRegex("(?:\\Q" + value.value + "\\E)", Op.Literal(value.value));
      r := Ok;
    }

    method Digit()
      requires Valid()
      modifies this
      ensures Valid() && groups == old(groups) && multiline == old(multiline)
      ensures buf == old(buf) + "\\d" && log == old(log) + [Op.Digit]
    {
      AddRegex("\\d", Op.Digit);
    }

    method Whitespace()
      requires Valid()
      modifies this
      ensures Valid() && groups == old(groups) && multiline == old(multiline)
      ensures buf == old(buf) + "\\s" && log == old(log) + [Op.Whitespace]
    {
      AddRegex("\\s", Op.Whitespace);
    }

    method Tab()
      requires Valid()
      modifies this
      ensures Valid() && groups == old(groups) && multiline == old(multiline)
      ensures buf == old(buf) + "\\t" && log == old(log) + [Op.Tab]
    {
      AddRegex("\\t", Op.Tab);
    }

    /** Alternation over already built patterns, given by their texts. */
    method OneOf(alternatives: seq<string>)
      requires Valid()
      modifies this
      ensures Valid() && groups == old(groups) && multiline == old(multiline)
      ensures buf == old(buf) + ("(?:" + Join("|", alternatives) + ")")
      ensures log == old(log) + [Op.OneOf(alternatives)]
    {
      var middlePart := Join("|", alternatives);
      AddRegex("(?:" + middlePart + ")", Op.OneOf(alternatives));
    }

    method Range(boundaries: seq<char>) returns (r: Outcome)
      requires Valid()
      modifies this
      ensures Valid() && groups == old(groups) && multiline == old(multiline)
      ensures r == if |boundaries| % 2 != 0 then Fail(OddBoundaryCount)
                   else if |boundaries| == 0 then Fail(NoBoundaries)
                   else Ok
      ensures r.Ok? ==> buf == old(buf) + RangeFragment(false, boundaries)
                        && log == old(log) + [Op.Range(false, boundaries)]
      ensures r.Fail? ==> buf == old(buf) && log == old(log)
    {
      if |boundaries| % 2 != 0 {
        return Fail(OddBoundaryCount);
      } else if |boundaries| == 0 {
        return Fail(NoBoundaries);
      }
      var expression := RangeExpression(false, boundaries);
      AddRegex(expression, Op.Range(false, boundaries));
      r := Ok;
    }

    method NotInRange(boundaries: seq<char>) returns (r: Outcome)
      requires Valid()
      modifies this
      ensures Valid() && groups == old(groups) && multiline == old(multiline)
      ensures r == if |boundaries| % 2 != 0 then Fail(OddBoundaryCount)
                   else if |boundaries| == 0 then Fail(NoBoundaries)
                   else Ok
      ensures r.Ok? ==> buf == old(buf) + RangeFragment(true, boundaries)
                        && log == old(log) + [Op.Range(true, boundaries)]
      ensures r.Fail? ==> buf == old(buf) && log == old(log)
    {
      if |boundaries| % 2 != 0 {
        return Fail(OddBoundaryCount);
      } else if |boundaries| == 0 {
        return Fail(NoBoundaries);
      }
      var expression := RangeExpression(true, boundaries);
      AddRegex(expression, Op.Range(true, boundaries));
      r := Ok;
    }

    method AnyCharacterOf(characters: Option<string>) returns (r: Outcome)
      requires Valid()
      modifies this
      ensures Valid() && groups == old(groups) && multiline == old(multiline)
      ensures r == if characters.None? then Fail(NullArgument)
                   else if |characters.value| == 0 then Fail(EmptyCharacters)
                   else Ok
      ensures r.Ok? ==> buf == old(buf) + ("[" + characters.value + "]")
                        && log == old(log) + [Op.AnyCharacterOf(false, characters.value)]
      ensures r.Fail? ==> buf == old(buf) && log == old(log)
    {
      if characters.None? {
        return Fail(NullArgument);
      }
      if |characters.value| == 0 {
        return Fail(EmptyCharacters);
      }
      AddRegex("[" + characters.value + "]", Op.AnyCharacterOf(false, characters.value));
      r := Ok;
    }

    method AnyCharacterExcept(characters: Option<string>) returns (r: Outcome)
      requires Valid()
      modifies this
      ensures Valid() && groups == old(groups) && multiline == old(multiline)
      ensures r == if characters.None? then Fail(NullArgument)
                   else if |characters.value| == 0 then Fail(EmptyCharacters)
                   else Ok
      ensures r.Ok? ==> buf == old(buf) + ("[^" + characters.value + "]")
                        && log == old(log) + [Op.AnyCharacterOf(true, characters.value)]
      ensures r.Fail? ==> buf == old(buf) && log == old(log)
    {
      if characters.None? {
        return Fail(NullArgument);
      }
      if |characters.value| == 0 {
        return Fail(EmptyCharacters);
      }
      AddRegex("[^" + characters.value + "]", Op.AnyCharacterOf(true, characters.value));
      r := Ok;
    }

    method WordCharacter()
      requires Valid()
      modifies this
      ensures Valid() && groups == old(groups) && multiline == old(multiline)
      ensures buf == old(buf) + "\\w" && log == old(log) + [Op.WordCharacter]
    {
      AddRegex("\\w", Op.WordCharacter);
    }

    method NonWordCharacter()
      requires Valid()
      modifies this
      ensures Valid() && groups == old(groups) && multiline == old(multiline)
      ensures buf == old(buf) + "\\W" && log == old(log) + [Op.NonWordCharacter]
    {
      AddRegex("\\W", Op.NonWordCharacter);
    }

    method WordBoundary()
      requires Valid()
      modifies this
      ensures Valid() && groups == old(groups) && multiline == old(multiline)
      ensures buf == old(buf) + "\\b" && log == old(log) + [Op.WordBoundary]
    {
      AddRegex("\\b", Op.WordBoundary);
    }

    method NonWordBoundary()
      requires Valid()
      modifies this
      ensures Valid() && groups == old(groups) && multiline == old(multiline)
      ensures buf == old(buf) + "\\B" && log == old(log) + [Op.NonWordBoundary]
    {
      AddRegex("\\B", Op.NonWordBoundary);
    }

    method AnyCharacter()
      requires Valid()
      modifies this
      ensures Valid() && groups == old(groups) && multiline == old(multiline)
      ensures buf == old(buf) + "." && log == old(log) + [Op.AnyCharacter]
    {
      AddRegex(".", Op.AnyCharacter);
    }

    method StartOfLine()
      requires Valid()
      modifies this
      ensures Valid() && groups == old(groups) && multiline
      ensures buf == old(buf) + "(?:^)" && log == old(log) + [Op.StartOfLine]
    {
      multiline := true;
      AddRegex("(?:^)", Op.StartOfLine);
    }

    method StartOfInput()
      requires Valid()
      modifies this
      ensures Valid() && groups == old(groups) && multiline == old(multiline)
      ensures buf == old(buf) + "\\A" && log == old(log) + [Op.StartOfInput]
    {
      AddRegex("\\A", Op.StartOfInput);
    }

    method EndOfLine()
      requires Valid()
      modifies this
      ensures Valid() && groups == old(groups) && multiline
      ensures buf == old(buf) + "(?:$)" && log == old(log) + [Op.EndOfLine]
    {
      multiline := true;
      AddRegex("(?:$)", Op.EndOfLine);
    }

    method EndOfInput()
      requires Valid()
      modifies this
      ensures Valid() && groups == old(groups) && multiline == old(multiline)
      ensures buf == old(buf) + "\\z" && log == old(log) + [Op.EndOfInput]
    {
      AddRegex("\\z", Op.EndOfInput);
    }

    method OneOrMore()
      requires Valid()
      modifies this
      ensures Valid() && groups == old(groups) && multiline == old(multiline)
      ensures buf == old(buf) + "+" && log == old(log) + [Op.OneOrMore]
    {
      AddRegex("+", Op.OneOrMore);
    }

    method Optional()
      requires Valid()
      modifies this
      ensures Valid() && groups == old(groups) && multiline == old(multiline)
      ensures buf == old(buf) + "?" && log == old(log) + [Op.Optional]
    {
      AddRegex("?", Op.Optional);
    }

    method ZeroOrMore()
      requires Valid()
      modifies this
      ensures Valid() && groups == old(groups) && multiline == old(multiline)
      ensures buf == old(buf) + "*" && log == old(log) + [Op.ZeroOrMore]
    {
      AddRegex("*", Op.ZeroOrMore);
    }

    /**
     * Bounded repetition `{n,m}`; the upper bound `Integer.MAX_VALUE` is
     * rendered open-ended as `{n,}`.
     */
    method CountRange(n: Int32, m: Int32) returns (r: Outcome)
      requires Valid()
      modifies this
      ensures Valid() && groups == old(groups) && multiline == old(multiline)
      ensures r == if n < 0 || m <= 0 then Fail(NonPositiveCount)
                   else if n > m then Fail(MinAboveMax)
                   else Ok
      ensures r.Ok? ==> buf == old(buf) + CountFragment(n, m) && log == old(log) + [Repeat(n, m)]
      ensures r.Fail? ==> buf == old(buf) && log == old(log)
    {
      if n < 0 || m <= 0 {
        return Fail(NonPositiveCount);
      } else if n > m {
        return Fail(MinAboveMax);
      }
      if m == IntMax {
        AddRegex("{" + Decimal(n) + ",}", Repeat(n, m));
        return Ok;
      }
      AddRegex("{" + Decimal(n) + "," + Decimal(m) + "}", Repeat(n, m));
      r := Ok;
    }

    /** `{n,n}`: refused for n <= 0, so `exactlyNTimes(0)` is an error. */
    method ExactlyNTimes(n: Int32) returns (r: Outcome)
      requires Valid()
      modifies this
      ensures Valid() && groups == old(groups) && multiline == old(multiline)
      ensures r == if n <= 0 then Fail(NonPositiveCount) else Ok
      ensures r.Ok? ==> buf == old(buf) + CountFragment(n, n) && log == old(log) + [Repeat(n, n)]
      ensures r.Fail? ==> buf == old(buf) && log == old(log)
    {
      r := CountRange(n, n);
    }

    /** `{n,}` for every n >= 0. */
    method AtLeastNTimes(n: Int32) returns (r: Outcome)
      requires Valid()
      modifies this
      ensures Valid() && groups == old(groups) && multiline == old(multiline)
      ensures r == if n < 0 then Fail(NonPositiveCount) else Ok
      ensures r.Ok? ==> buf == old(buf) + ("{" + Decimal(n) + ",}") && log == old(log) + [Repeat(n, IntMax)]
      ensures r.Fail? ==> buf == old(buf) && log == old(log)
    {
      r := CountRange(n, IntMax);
      if r.Ok? {
        assert CountFragment(n, IntMax) == "{" + Decimal(n) + ",}";
      }
    }

    method BetweenNAndMTimes(n: Int32, m: Int32) returns (r: Outcome)
      requires Valid()
      modifies this
      ensures Valid() && groups == old(groups) && multiline == old(multiline)
      ensures r == if n < 0 || m <= 0 then Fail(NonPositiveCount)
                   else if n > m then Fail(MinAboveMax)
                   else Ok
      ensures r.Ok? ==> buf == old(buf) + CountFragment(n, m) && log == old(log) + [Repeat(n, m)]
      ensures r.Fail? ==> buf == old(buf) && log == old(log)
    {
      r := CountRange(n, m);
    }

    method Reluctant()
      requires Valid()
      modifies this
      ensures Valid() && groups == old(groups) && multiline == old(multiline)
      ensures buf == old(buf) + "?" && log == old(log) + [Op.Reluctant]
    {
      AddRegex("?", Op.Reluctant);
    }

    method Possessive()
      requires Valid()
      modifies this
      ensures Valid() && groups == old(groups) && multiline == old(multiline)
      ensures buf == old(buf) + "+" && log == old(log) + [Op.Possessive]
    {
      AddRegex("+", Op.Possessive);
    }

    /** Opens an unnamed capture group and records it as a None entry. */
    method StartGroup()
      requires Valid()
      modifies this
      ensures Valid() && multiline == old(multiline)
      ensures groups == old(groups) + [None]
      ensures buf == old(buf) + "(" && log == old(log) + [Op.StartGroup]
    {
      groups := groups + [None];
      AddRegex("(", Op.StartGroup);
    }

    /** Opens a named capture group; the name must match `[a-zA-Z][a-zA-Z0-9]*`. */
    method StartNamedGroup(groupName: Option<string>) returns (r: Outcome)
      requires Valid()
      modifies this
      ensures Valid() && multiline == old(multiline)
      ensures r == if groupName.None? then Fail(NullArgument)
                   else if !IsValidGroupName(groupName.value) then Fail(InvalidGroupName)
                   else Ok
      ensures r.Ok? ==> groups == old(groups) + [groupName]
                        && buf == old(buf) + ("(?<" + groupName.value + ">")
                        && log == old(log) + [Op.StartNamedGroup(groupName.value)]
      ensures r.Fail? ==> groups == old(groups) && buf == old(buf) && log == old(log)
    {
      if groupName.None? {
        return Fail(NullArgument);
      }
      var name := groupName.value;
      GroupNamePatternIsValidName(name);
      if !MatchesGroupNamePattern(name) {
        return Fail(InvalidGroupName);
      }
      groups := groups + [Some(name)];
      AddRegex("(?<" + name + ">", Op.StartNamedGroup(name));
      r := Ok;
    }

    /** Opens a non-capturing group: no entry in the group list. */
    method StartUnnamedGroup()
      requires Valid()
      modifies this
      ensures Valid() && groups == old(groups) && multiline == old(multiline)
      ensures buf == old(buf) + "(?:" && log == old(log) + [Op.StartUnnamedGroup]
    {
      AddRegex("(?:", Op.StartUnnamedGroup);
    }

    method StartPositiveLookbehind()
      requires Valid()
      modifies this
      ensures Valid() && groups == old(groups) && multiline == old(multiline)
      ensures buf == old(buf) + "(?<=" && log == old(log) + [Op.StartPositiveLookbehind]
    {
      AddRegex("(?<=", Op.StartPositiveLookbehind);
    }

    method StartNegativeLookbehind()
      requires Valid()
      modifies this
      ensures Valid() && groups == old(groups) && multiline == old(multiline)
      ensures buf == old(buf) + "(?<!" && log == old(log) + [Op.StartNegativeLookbehind]
    {
      AddRegex("(?<!", Op.StartNegativeLookbehind);
    }

    method StartPositiveLookahead()
      requires Valid()
      modifies this
      ensures Valid() && groups == old(groups) && multiline == old(multiline)
      ensures buf == old(buf) + "(?=" && log == old(log) + [Op.StartPositiveLookahead]
    {
      AddRegex("(?=", Op.StartPositiveLookahead);
    }

    method StartNegativeLookahead()
      requires Valid()
      modifies this
      ensures Valid() && groups == old(groups) && multiline == old(multiline)
      ensures buf == old(buf) + "(?!" && log == old(log) + [Op.StartNegativeLookahead]
    {
      AddRegex("(?!", Op.StartNegativeLookahead);
    }

    /** Closes a group; purely textual, nothing checks that a group is open. */
    method EndGroup()
      requires Valid()
      modifies this
      ensures Valid() && groups == old(groups) && multiline == old(multiline)
      ensures buf == old(buf) + ")" && log == old(log) + [Op.EndGroup]
    {
      AddRegex(")", Op.EndGroup);
    }
  }
}
