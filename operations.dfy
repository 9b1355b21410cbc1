/**
 * The DSL operations both builders offer, the text fragment each one
 * appends, and what a history of successful operations says about the
 * builder's state: its buffer, its capture-group list and whether a line
 * anchor was used.
 */
module Operations {
  import opened RegexText

  /** Why an operation was refused; the builder is left as it was. */
  datatype Error =
    | NullArgument       // a required argument was null
    | OddBoundaryCount   // `range`/`notInRange` with an odd number of boundaries
    | NoBoundaries       // `range`/`notInRange` with no boundaries
    | EmptyCharacters    // `anyCharacterOf`/`anyCharacterExcept` with ""
    | NonPositiveCount   // repetition with n < 0 or m <= 0
    | MinAboveMax        // repetition with n > m
    | InvalidGroupName   // a name outside `[a-zA-Z][a-zA-Z0-9]*`

  datatype Outcome = Ok | Fail(error: Error)

  /** One successful call on a builder, with the arguments it was given. */
  datatype Op =
    | RegexFromString(regex: string)
    | Add(pattern: string)
    | Literal(value: string)
    | Digit | Whitespace | Tab
    | OneOf(alternatives: seq<string>)
    | Range(negated: bool, boundaries: seq<char>)
    | AnyCharacterOf(negated: bool, characters: string)
    | WordCharacter | NonWordCharacter | WordBoundary | NonWordBoundary | AnyCharacter
    | StartOfLine | StartOfInput | EndOfLine | EndOfInput
    | OneOrMore | Optional | ZeroOrMore
    | Repeat(min: nat, max: nat)
    | Reluctant | Possessive
    | StartGroup | StartNamedGroup(name: string) | StartUnnamedGroup
    | StartPositiveLookbehind | StartNegativeLookbehind
    | StartPositiveLookahead | StartNegativeLookahead
    | EndGroup

  /** The arguments an operation was accepted with pass its validation. */
  predicate Admissible(op: Op)
    ensures op.StartNamedGroup? ==> (Admissible(op) <==> MatchesGroupNamePattern(op.name))
  {
    match op
    case Range(_, b) => |b| % 2 == 0 && |b| > 0
    case AnyCharacterOf(_, chars) => |chars| > 0
    case Repeat(n, m) => 0 < m <= IntMax && n <= m
    case StartNamedGroup(name) => GroupNamePatternIsValidName(name); IsValidGroupName(name)
    case _ => true
  }

  /** The text an operation appends to the buffer. */
  function Fragment(op: Op): (f: string)
    requires Admissible(op)
    ensures |f| == 0 ==> op == RegexFromString("")
  {
    match op
    case RegexFromString(regex) => regex
    case Add(pattern) => "(?:" + pattern + ")"
    case Literal(value) => "(?:\\Q" + value + "\\E)"
    case Digit => "\\d"
    case Whitespace => "\\s"
    case Tab => "\\t"
    case OneOf(alternatives) => "(?:" + Join("|", alternatives) + ")"
    case Range(negated, b) => RangeFragment(negated, b)
    case AnyCharacterOf(negated, chars) => (if negated then "[^" else "[") + chars + "]"
    case WordCharacter => "\\w"
    case NonWordCharacter => "\\W"
    case WordBoundary => "\\b"
    case NonWordBoundary => "\\B"
    case AnyCharacter => "."
    case StartOfLine => "(?:^)"
    case StartOfInput => "\\A"
    case EndOfLine => "(?:$)"
    case EndOfInput => "\\z"
    case OneOrMore => "+"
    case Optional => "?"
    case ZeroOrMore => "*"
    case Repeat(n, m) => CountFragment(n, m)
    case Reluctant => "?"
    case Possessive => "+"
    case StartGroup => "("
    case StartNamedGroup(name) => "(?<" + name + ">"
    case StartUnnamedGroup => "(?:"
    case StartPositiveLookbehind => "(?<="
    case StartNegativeLookbehind => "(?<!"
    case StartPositiveLookahead => "(?="
    case StartNegativeLookahead => "(?!"
    case EndGroup => ")"
  }

  /** The entry an operation adds to the capture-group list (None for an unnamed group). */
  function GroupEntry(op: Op): seq<Option<string>>
  {
    match op
    case StartGroup => [None]
    case StartNamedGroup(name) => [Some(name)]
    case _ => []
  }

  /** Whether an operation anchors at a line boundary, which needs MULTILINE. */
  predicate IsLineAnchor(op: Op) {
    op.StartOfLine? || op.EndOfLine?
  }

  predicate AllAdmissible(log: seq<Op>) {
    forall i :: 0 <= i < |log| ==> Admissible(log[i])
  }

  /** The buffer after the operations of `log`, from a fresh builder. */
  function Render(log: seq<Op>): (r: string)
    requires AllAdmissible(log)
    ensures r == "" <==> forall i :: 0 <= i < |log| ==> log[i] == RegexFromString("")
  {
    if |log| == 0 then ""
    else Render(log[..|log| - 1]) + Fragment(log[|log| - 1])
  }

  /** The capture-group list after the operations of `log`. */
  function GroupEntries(log: seq<Op>): (r: seq<Option<string>>)
    ensures |r| <= |log|
  {
    if |log| == 0 then []
    else GroupEntries(log[..|log| - 1]) + GroupEntry(log[|log| - 1])
  }

  /** Whether some operation of `log` is a line anchor. */
  predicate UsesLineAnchors(log: seq<Op>)
    ensures UsesLineAnchors(log) ==> |log| > 0
    ensures |log| > 0 && IsLineAnchor(log[|log| - 1]) ==> UsesLineAnchors(log)
  {
    exists i :: 0 <= i < |log| && IsLineAnchor(log[i])
  }

  /** The number of capturing group openings (`startGroup()` and `startGroup(name)`) in `log`. */
  function CapturingOpens(log: seq<Op>): nat
  {
    if |log| == 0 then 0
    else CapturingOpens(log[..|log| - 1]) + (if log[|log| - 1].StartGroup? || log[|log| - 1].StartNamedGroup? then 1 else 0)
  }

  /** One more operation: its fragment is appended, its group entry added, its anchor noted. */
  lemma LogSnoc(log: seq<Op>, op: Op)
    requires AllAdmissible(log) && Admissible(op)
    ensures AllAdmissible(log + [op])
    ensures Render(log + [op]) == Render(log) + Fragment(op)
    ensures GroupEntries(log + [op]) == GroupEntries(log) + GroupEntry(op)
    ensures UsesLineAnchors(log + [op]) == (UsesLineAnchors(log) || IsLineAnchor(op))
  {
    var l := log + [op];
    assert l[..|l| - 1] == log;
    assert l[|l| - 1] == op;
    if UsesLineAnchors(log) {
      var i :| 0 <= i < |log| && IsLineAnchor(log[i]);
      assert l[i] == log[i];
    }
    if UsesLineAnchors(l) && !IsLineAnchor(op) {
      var i :| 0 <= i < |l| && IsLineAnchor(l[i]);
      assert i < |log| && log[i] == l[i];
    }
  }

  /** Peels the last element off the right operand of a concatenation. */
  lemma SplitLast<T>(a: seq<T>, b: seq<T>)
    requires |b| > 0
    ensures a + b == (a + b[..|b| - 1]) + [b[|b| - 1]]
  {
    assert b == b[..|b| - 1] + [b[|b| - 1]];
  }

  /** The buffer is append-only: running two histories in turn concatenates their texts. */
  lemma {:induction false} RenderConcat(a: seq<Op>, b: seq<Op>)
    requires AllAdmissible(a) && AllAdmissible(b)
    ensures AllAdmissible(a + b)
    ensures Render(a + b) == Render(a) + Render(b)
  {
    if |b| == 0 {
      assert a + b == a;
    } else {
      var b' := b[..|b| - 1];
      var last := b[|b| - 1];
      assert b == b' + [last];
      assert AllAdmissible(b') by {
        forall i | 0 <= i < |b'| ensures Admissible(b'[i]) {
          assert b'[i] == b[i];
        }
      }
      RenderConcat(a, b');
      LogSnoc(a + b', last);
      LogSnoc(b', last);
      SplitLast(a, b);
      var x, y, z := Render(a), Render(b'), Fragment(last);
      assert Render(a + b) == (x + y) + z;
      assert Render(b) == y + z;
      AppendAssociative(x, y, z);
    }
  }

  /** Earlier text is never rewritten: the old buffer is a prefix of every later one. */
  lemma BufferOnlyGrows(a: seq<Op>, b: seq<Op>)
    requires AllAdmissible(a) && AllAdmissible(b)
    ensures AllAdmissible(a + b)
    ensures Render(a) <= Render(a + b)
  {
    RenderConcat(a, b);
  }

  /** Group entries are recorded in opening order: later openings come after earlier ones. */
  lemma {:induction false} GroupEntriesConcat(a: seq<Op>, b: seq<Op>)
    ensures GroupEntries(a + b) == GroupEntries(a) + GroupEntries(b)
  {
    if |b| == 0 {
      assert a + b == a;
    } else {
      var b' := b[..|b| - 1];
      var last := b[|b| - 1];
      assert b == b' + [last];
      GroupEntriesConcat(a, b');
      SplitLast(a, b);
      assert (a + b)[..|a + b| - 1] == a + b';
      var x, y, z := GroupEntries(a), GroupEntries(b'), GroupEntry(last);
      assert GroupEntries(a + b) == (x + y) + z;
      assert GroupEntries(b) == y + z;
      AppendAssociative(x, y, z);
    }
  }

  /** The group list holds one entry per capturing group opened, and no other. */
  lemma {:induction false} GroupCountMatchesOpens(log: seq<Op>)
    ensures |GroupEntries(log)| == CapturingOpens(log)
  {
    if |log| > 0 {
      GroupCountMatchesOpens(log[..|log| - 1]);
    }
  }

  /** Every named entry of the group list is a valid group name. */
  lemma {:induction false} NamedEntriesAreValid(log: seq<Op>)
    requires AllAdmissible(log)
    ensures forall i :: 0 <= i < |GroupEntries(log)| && GroupEntries(log)[i].Some? ==>
              IsValidGroupName(GroupEntries(log)[i].value)
  {
    if |log| > 0 {
      var prev := log[..|log| - 1];
      NamedEntriesAreValid(prev);
      assert Admissible(log[|log| - 1]);
    }
  }

  /** Once a line anchor has been used, MULTILINE stays requested whatever follows. */
  lemma LineAnchorsPersist(a: seq<Op>, b: seq<Op>)
    requires UsesLineAnchors(a)
    ensures UsesLineAnchors(a + b)
  {
    var i :| 0 <= i < |a| && IsLineAnchor(a[i]);
    assert (a + b)[i] == a[i];
  }

  /** `oneOf` with no alternatives emits `(?:)`; with one it wraps that one alone. */
  lemma OneOfDegenerateCases(t: string)
    ensures Fragment(OneOf([])) == "(?:)"
    ensures Fragment(OneOf([t])) == Fragment(Add(t))
  {
  }

  /**
   * `exactlyNTimes(Integer.MAX_VALUE)` asks for `{MAX,MAX}` but the sentinel
   * check renders it open-ended, so it reads back as "at least MAX".
   */
  lemma ExactlyMaxReadsAsOpenEnded()
    ensures DecodeCount(Fragment(Repeat(IntMax, IntMax))) == Some((IntMax, None))
  {
    assert Fragment(Repeat(IntMax, IntMax)) == CountFragment(IntMax, IntMax);
    CountFragmentRoundTrip(IntMax, IntMax);
  }

  /** The repetition fragment gives back the bounds it was made from. */
  lemma RepeatFragmentDecodes(n: nat, m: nat)
    requires Admissible(Repeat(n, m)) && m < IntMax
    ensures DecodeCount(Fragment(Repeat(n, m))) == Some((n, Some(m)))
  {
    CountFragmentRoundTrip(n, m);
  }
}
