/**
 * The older regex-text builder of the `com.apon.readableregex` package: a
 * growing buffer only, with no multiline flag and no group-name list. Its
 * `group(...)` operations chain three appends, so a failure in the middle
 * leaves the appends made before it in place.
 */
module LegacyReadableRegex {
  import opened RegexText
  import opened Operations

  /** What `buildWithFlags` hands to the regex compiler. */
  datatype Pattern = Pattern(text: string, flags: set<Flag>)

  class Builder {
    /** The regular expression assembled so far. */
    var buf: string
    /** The successful calls so far, oldest first. */
    ghost var log: seq<Op>

    /** The buffer is exactly what the calls so far produce. */
    ghost predicate Valid()
      reads this
    {
      AllAdmissible(log) && buf == Render(log)
    }

    constructor ()
      ensures Valid() && log == [] && buf == ""
    {
      buf := "";
      log := [];
    }

    /** The text and exactly the requested flags OR-ed together; nothing is added implicitly. */
    method BuildWithFlags(requested: seq<Flag>) returns (p: Pattern)
      ensures p.text == buf
      ensures forall f :: f in p.flags <==> f in requested
    {
      var flags := CombineFlags(requested);
      p := Pattern(buf, flags);
    }

    /** Appends `regex`, the fragment of `op`. */
    method AddRegex(regex: string, ghost op: Op)
      requires Valid()
      requires Admissible(op) && regex == Fragment(op)
      modifies this
      ensures Valid()
      ensures buf == old(buf) + regex && log == old(log) + [op]
    {
      LogSnoc(log, op);
      buf := buf + regex;
      log := log + [op];
    }

    method RegexFromString(regex: Option<string>) returns (r: Outcome)
      requires Valid()
      modifies this
      ensures Valid()
      ensures r == (if regex.None? then Fail(NullArgument) else Ok)
      ensures r.Ok? ==> buf == old(buf) + regex.value && log == old(log) + [Op.RegexFromString(regex.value)]
      ensures r.Fail? ==> buf == old(buf) && log == old(log)
    {
      if regex.None? {
        return Fail(NullArgument);
      }
      AddRegex(regex.value, Op.RegexFromString(regex.value));
      r := Ok;
    }

    /** Embeds another builder, given by the text it builds, as a non-capturing group. */
    method Add(pattern: Option<string>) returns (r: Outcome)
      requires Valid()
      modifies this
      ensures Valid()
      ensures r == (if pattern.None? then Fail(NullArgument) else Ok)
      ensures r.Ok? ==> buf == old(buf) + ("(?:" + pattern.value + ")") && log == old(log) + [Op.Add(pattern.value)]
      ensures r.Fail? ==> buf == old(buf) && log == old(log)
    {
      if pattern.None? {
        return Fail(NullArgument);
      }
      AddRegex("(?:" + pattern.value + ")", Op.Add(pattern.value));
      r := Ok;
    }

    method Literal(value: Option<string>) returns (r: Outcome)
      requires Valid()
      modifies this
      ensures Valid()
      ensures r == (if value.None? then Fail(NullArgument) else Ok)
      ensures r.Ok? ==> buf == old(buf) + ("(?:\\Q" + value.value + "\\E)") && log == old(log) + [Op.Literal(value.value)]
      ensures r.Fail? ==> buf == old(buf) && log == old(log)
    {
      if value.None? {
        return Fail(NullArgument);
      }
      AddRegex("(?:\\Q" + value.value + "\\E)", Op.Literal(value.value));
      r := Ok;
    }

    method Digit()
      requires Valid()
      modifies this
      ensures Valid()
      ensures buf == old(buf) + "\\d" && log == old(log) + [Op.Digit]
    {
      AddRegex("\\d", Op.Digit);
    }

    method Whitespace()
      requires Valid()
      modifies this
      ensures Valid()
      ensures buf == old(buf) + "\\s" && log == old(log) + [Op.Whitespace]
    {
      AddRegex("\\s", Op.Whitespace);
    }

    /** Appends `+` whatever precedes it; no adjacency check is made here. */
    method OneOrMore()
      requires Valid()
      modifies this
      ensures Valid()
      ensures buf == old(buf) + "+" && log == old(log) + [Op.OneOrMore]
    {
      AddRegex("+", Op.OneOrMore);
    }

    /** Appends `?` whatever precedes it; no adjacency check is made here. */
    method Optional()
      requires Valid()
      modifies this
      ensures Valid()
      ensures buf == old(buf) + "?" && log == old(log) + [Op.Optional]
    {
      AddRegex("?", Op.Optional);
    }

    method StartGroup()
      requires Valid()
      modifies this
      ensures Valid()
      ensures buf == old(buf) + "(" && log == old(log) + [Op.StartGroup]
    {
      AddRegex("(", Op.StartGroup);
    }

    /** Opens a named group; the name must match `[a-zA-Z][a-zA-Z0-9]*`. */
    method StartNamedGroup(groupName: Option<string>) returns (r: Outcome)
      requires Valid()
      modifies this
      ensures Valid()
      ensures r == if groupName.None? then Fail(NullArgument)
                   else if !IsValidGroupName(groupName.value) then Fail(InvalidGroupName)
                   else Ok
      ensures r.Ok? ==> buf == old(buf) + ("(?<" + groupName.value + ">")
                        && log == old(log) + [Op.StartNamedGroup(groupName.value)]
      ensures r.Fail? ==> buf == old(buf) && log == old(log)
    {
      if groupName.None? {
        return Fail(NullArgument);
      }
      var name := groupName.value;
      GroupNamePatternIsValidName(name);
      if !MatchesGroupNamePattern(name) {
        return Fail(InvalidGroupName);
      }
      AddRegex("(?<" + name + ">", Op.StartNamedGroup(name));
      r := Ok;
    }

    method StartPositiveLookbehind()
      requires Valid()
      modifies this
      ensures Valid()
      ensures buf == old(buf) + "(?<=" && log == old(log) + [Op.StartPositiveLookbehind]
    {
      AddRegex("(?<=", Op.StartPositiveLookbehind);
    }

    method StartNegativeLookbehind()
      requires Valid()
      modifies this
      ensures Valid()
      ensures buf == old(buf) + "(?<!" && log == old(log) + [Op.StartNegativeLookbehind]
    {
      AddRegex("(?<!", Op.StartNegativeLookbehind);
    }

    method StartPositiveLookahead()
      requires Valid()
      modifies this
      ensures Valid()
      ensures buf == old(buf) + "(?=" && log == old(log) + [Op.StartPositiveLookahead]
    {
      AddRegex("(?=", Op.StartPositiveLookahead);
    }

    method StartNegativeLookahead()
      requires Valid()
      modifies this
      ensures Valid()
      ensures buf == old(buf) + "(?!" && log == old(log) + [Op.StartNegativeLookahead]
    {
      AddRegex("(?!", Op.StartNegativeLookahead);
    }

    method EndGroup()
      requires Valid()
      modifies this
      ensures Valid()
      ensures buf == old(buf) + ")" && log == old(log) + [Op.EndGroup]
    {
      AddRegex(")", Op.EndGroup);
    }

    /**
     * `startGroup()`, then `add(pattern)`, then `endGroup()`. A null pattern
     * fails in the middle step, after `(` has been appended.
     */
    method Group(pattern: Option<string>) returns (r: Outcome)
      requires Valid()
      modifies this
      ensures Valid()
      ensures r == (if pattern.None? then Fail(NullArgument) else Ok)
      ensures r.Ok? ==> buf == old(buf) + "(" + ("(?:" + pattern.value + ")") + ")"
                        && log == old(log) + [Op.StartGroup, Op.Add(pattern.value), Op.EndGroup]
      ensures r.Fail? ==> buf == old(buf) + "(" && log == old(log) + [Op.StartGroup]
    {
      StartGroup();
      ghost var afterOpen := buf;
      assert afterOpen == old(buf) + "(";
      r := Add(pattern);
      if r.Fail? {
        return;
      }
      assert buf == afterOpen + ("(?:" + pattern.value + ")");
      EndGroup();
      SnocThree(old(log), Op.StartGroup, Op.Add(pattern.value), Op.EndGroup);
    }

    /**
     * `startGroup(name)`, then `add(pattern)`, then `endGroup()`. A null or
     * invalid name fails before anything is appended; a null pattern fails
     * after `(?<name>` has been appended.
     */
    method NamedGroup(groupName: Option<string>, pattern: Option<string>) returns (r: Outcome)
      requires Valid()
      modifies this
      ensures Valid()
      ensures r == if groupName.None? then Fail(NullArgument)
                   else if !IsValidGroupName(groupName.value) then Fail(InvalidGroupName)
                   else if pattern.None? then Fail(NullArgument)
                   else Ok
      ensures r.Ok? ==> buf == old(buf) + ("(?<" + groupName.value + ">") + ("(?:" + pattern.value + ")") + ")"
                        && log == old(log) + [Op.StartNamedGroup(groupName.value), Op.Add(pattern.value), Op.EndGroup]
      ensures groupName.None? || !IsValidGroupName(groupName.value) ==> buf == old(buf) && log == old(log)
      ensures groupName.Some? && IsValidGroupName(groupName.value) && pattern.None? ==>
                buf == old(buf) + ("(?<" + groupName.value + ">")
                && log == old(log) + [Op.StartNamedGroup(groupName.value)]
    {
      r := StartNamedGroup(groupName);
      if r.Fail? {
        return;
      }
      ghost var afterOpen := buf;
      assert afterOpen == old(buf) + ("(?<" + groupName.value + ">");
      r := Add(pattern);
      if r.Fail? {
        return;
      }
      assert buf == afterOpen + ("(?:" + pattern.value + ")");
      EndGroup();
      SnocThree(old(log), Op.StartNamedGroup(groupName.value), Op.Add(pattern.value), Op.EndGroup);
    }
  }
}
