/**
 * Call sequences from the builders' tests, replayed on the models: what
 * text, group list and flags they leave behind.
 */
module Scenarios {
  import opened RegexText
  import opened Operations
  import ReadableRegex
  import LegacyReadableRegex

  /** A sub-builder holding `literal(value)` alone; its text is what `oneOf` is given. */
  method LiteralAlone(value: string) returns (text: string)
    ensures text == "(?:\\Q" + value + "\\E)"
  {
    var sub := new ReadableRegex.Builder();
    var _ := sub.Literal(Some(value));
    assert sub.buf == "(?:\\Q" + value + "\\E)";
    text := sub.buf;
  }

  /** `oneOf()` with no alternatives, then `oneOf(alternative)` with a single one. */
  method OneOfNoneThenOne(alternative: string) returns (text: string)
    ensures text == "(?:)" + ("(?:" + alternative + ")")
  {
    var b := new ReadableRegex.Builder();
    b.OneOf([]);
    assert b.buf == "(?:)" by {
      assert Join("|", []) == "";
    }
    b.OneOf([alternative]);
    assert Join("|", [alternative]) == alternative;
    text := b.buf;
  }

  /** `oneOf()` with no alternatives, then with the single alternative `literal("b")`. */
  method OneOfWithZeroOrOneAlternatives() returns (text: string)
    ensures text == "(?:)(?:(?:\\Qb\\E))"
  {
    var alternative := LiteralAlone("b");
    text := OneOfNoneThenOne(alternative);
  }

  /** A sub-builder holding `whitespace()` alone. */
  method WhitespaceAlone() returns (text: string)
    ensures text == "\\s"
  {
    var sub := new ReadableRegex.Builder();
    sub.Whitespace();
    text := sub.buf;
  }

  /** `digit().add(embedded).oneOrMore().digit()`. */
  method DigitEmbeddedOneOrMoreDigit(embedded: string) returns (text: string)
    ensures text == "\\d" + ("(?:" + embedded + ")") + "+" + "\\d"
  {
    var b := new ReadableRegex.Builder();
    b.Digit();
    assert b.buf == "\\d";
    var _ := b.Add(Some(embedded));
    b.OneOrMore();
    b.Digit();
    text := b.buf;
  }

  /** `digit().add(whitespace()).oneOrMore().digit()`: the quantifier follows the wrapped block. */
  method EmbeddedBuilderIsWrapped() returns (text: string)
    ensures text == "\\d(?:\\s)+\\d"
  {
    var embedded := WhitespaceAlone();
    text := DigitEmbeddedOneOrMoreDigit(embedded);
  }

  /** `startGroup(first)`, `startGroup()`, then `startGroup(second)` with an invalid second name. */
  method NamedUnnamedThenRefused(first: string, second: string)
    returns (text: string, groups: seq<Option<string>>, r: Outcome)
    requires IsValidGroupName(first) && !IsValidGroupName(second)
    ensures r == Fail(InvalidGroupName)
    ensures text == ("(?<" + first + ">") + "("
    ensures groups == [Some(first), None]
  {
    var b := new ReadableRegex.Builder();
    var _ := b.StartNamedGroup(Some(first));
    assert b.buf == "(?<" + first + ">";
    b.StartGroup();
    r := b.StartNamedGroup(Some(second));
    text, groups := b.buf, b.groups;
  }

  /**
   * `startGroup("first")`, `startGroup()`, then the refused `startGroup("2nd")`:
   * the group list keeps opening order and the refused name leaves no trace.
   */
  method GroupNamesInOpeningOrder() returns (text: string, groups: seq<Option<string>>, r: Outcome)
    ensures r == Fail(InvalidGroupName)
    ensures text == "(?<first>("
    ensures groups == [Some("first"), None]
  {
    text, groups, r := NamedUnnamedThenRefused("first", "2nd");
  }

  /** `startOfLine().digit()` built with no flag requested carries MULTILINE. */
  method LineAnchorRequestsMultiline() returns (p: ReadableRegex.Pattern)
    ensures p.text == "(?:^)\\d"
    ensures p.flags == {Multiline}
  {
    var b := new ReadableRegex.Builder();
    b.StartOfLine();
    assert b.buf == "(?:^)";
    b.Digit();
    p := b.BuildWithFlags([]);
  }

  /** The older builder's `group(null)`: fails after `(` is already in the buffer. */
  method LegacyGroupIsNotAtomic() returns (text: string, r: Outcome)
    ensures r == Fail(NullArgument)
    ensures text == "\\d("
  {
    var b := new LegacyReadableRegex.Builder();
    b.Digit();
    assert b.buf == "\\d";
    r := b.Group(None);
    text := b.buf;
  }
}
