/**
 * Pure text helpers shared by both regex builders: decimal rendering of the
 * repetition bounds, the `|`-join used by `oneOf`, the body of a character
 * range class, the group-name check, the `{n,m}` fragment and the reduction
 * of requested pattern flags to a set.
 */
module RegexText {

  datatype Option<+T> = None | Some(value: T)

  // ---------------------------------------------------------------------------
  // Java `int` values

  const IntMin: int := -0x8000_0000
  /** `Integer.MAX_VALUE`, the sentinel `atLeastNTimes` passes as upper bound. */
  const IntMax: int := 0x7fff_ffff

  type Int32 = x: int | IntMin <= x <= IntMax

  // ---------------------------------------------------------------------------
  // Decimal rendering of a non-negative `int` (what `"{" + n` does in Java)

  predicate IsDigit(c: char) {
    '0' <= c <= '9'
  }

  function DigitChar(d: nat): (c: char)
    requires d < 10
    ensures IsDigit(c) && c as int - '0' as int == d
  {
    ('0' as int + d) as char
  }

  /** The decimal text of `n`: non-empty, digits only, no leading zero. */
  function Decimal(n: nat): (s: string)
    ensures |s| > 0
    ensures forall i :: 0 <= i < |s| ==> IsDigit(s[i])
    ensures s[0] == '0' ==> n == 0 && |s| == 1
  {
    if n < 10 then [DigitChar(n)] else Decimal(n / 10) + [DigitChar(n % 10)]
  }

  /** Reads a string of decimal digits back as a number. */
  function ParseDecimal(s: string): int
  {
    if |s| == 0 then 0
    else ParseDecimal(s[..|s| - 1]) * 10 + (s[|s| - 1] as int - '0' as int)
  }

  /** Rendering then reading gives the number back, so distinct bounds render differently. */
  lemma {:induction false} DecimalRoundTrip(n: nat)
    ensures ParseDecimal(Decimal(n)) == n
  {
    if n >= 10 {
      var d := Decimal(n / 10);
      var s := d + [DigitChar(n % 10)];
      assert s[..|s| - 1] == d;
      DecimalRoundTrip(n / 10);
    }
  }

  // ---------------------------------------------------------------------------
  // Joining the alternatives of `oneOf` (Collectors.joining)

  /** `parts[0] + sep + parts[1] + ... + sep + parts[k-1]`; empty for no parts. */
  function Join(sep: string, parts: seq<string>): (r: string)
    ensures |parts| > 0 ==> parts[0] <= r
    ensures |parts| > 1 ==> parts[0] + sep <= r
  {
    if |parts| == 0 then ""
    else if |parts| == 1 then parts[0]
    else parts[0] + sep + Join(sep, parts[1..])
  }

  function SumLengths(parts: seq<string>): nat
  {
    if |parts| == 0 then 0 else |parts[0]| + SumLengths(parts[1..])
  }

  /** The joined text holds every part and one separator between each two. */
  lemma {:induction false} JoinLength(sep: string, parts: seq<string>)
    requires |parts| > 0
    ensures |Join(sep, parts)| == SumLengths(parts) + |sep| * (|parts| - 1)
  {
    if |parts| > 1 {
      JoinLength(sep, parts[1..]);
    }
  }

  /** Splits `s` at every occurrence of `c`; the inverse of a one-character join. */
  function Split(s: string, c: char): (r: seq<string>)
    ensures |r| > 0
  {
    if |s| == 0 then [""]
    else
      var rest := Split(s[1..], c);
      if s[0] == c then [""] + rest
      else [[s[0]] + rest[0]] + rest[1..]
  }

  lemma {:induction false} SplitAfterPlainPrefix(p: string, tail: string, c: char)
    requires c !in p
    ensures Split(p + tail, c) == [p + Split(tail, c)[0]] + Split(tail, c)[1..]
  {
    if |p| > 0 {
      assert (p + tail)[1..] == p[1..] + tail;
      SplitAfterPlainPrefix(p[1..], tail, c);
      assert [p[0]] + (p[1..] + Split(tail, c)[0]) == p + Split(tail, c)[0];
    } else {
      var r := Split(tail, c);
      assert p + tail == tail;
      assert p + r[0] == r[0];
      assert [r[0]] + r[1..] == r;
    }
  }

  /** When no alternative contains the separator, the joined text determines the alternatives. */
  lemma {:induction false} SplitJoin(parts: seq<string>, c: char)
    requires |parts| > 0
    requires forall i :: 0 <= i < |parts| ==> c !in parts[i]
    ensures Split(Join([c], parts), c) == parts
  {
    if |parts| == 1 {
      SplitAfterPlainPrefix(parts[0], "", c);
      assert parts[0] + "" == parts[0];
    } else {
      var rest := Join([c], parts[1..]);
      SplitJoin(parts[1..], c);
      assert Split([c] + rest, c) == [""] + parts[1..] by {
        assert ([c] + rest)[1..] == rest;
      }
      assert Join([c], parts) == parts[0] + ([c] + rest);
      SplitAfterPlainPrefix(parts[0], [c] + rest, c);
      assert parts[0] + "" == parts[0];
      assert [parts[0]] + parts[1..] == parts;
    }
  }

  // ---------------------------------------------------------------------------
  // Character ranges: `lo '-' hi` for each consecutive pair of boundaries

  /** The inside of a range class: one `lo-hi` triple per pair of boundaries. */
  function RangeBody(boundaries: seq<char>): (s: string)
    requires |boundaries| % 2 == 0
    ensures |s| == |boundaries| / 2 * 3
  {
    if |boundaries| == 0 then []
    else
      var k := |boundaries|;
      RangeBody(boundaries[..k - 2]) + [boundaries[k - 2], '-', boundaries[k - 1]]
  }

  /** Two more boundaries add one more triple. */
  lemma RangeBodyStep(boundaries: seq<char>, i: nat)
    requires i % 2 == 0 && |boundaries| % 2 == 0 && i < |boundaries|
    ensures i + 2 <= |boundaries| && (i + 2) % 2 == 0
    ensures RangeBody(boundaries[..i + 2]) == RangeBody(boundaries[..i]) + [boundaries[i], '-', boundaries[i + 1]]
  {
    var done := boundaries[..i + 2];
    assert done[..|done| - 2] == boundaries[..i];
  }

  /** The class emitted by `range` (`[`...`]`) or `notInRange` (`[^`...`]`). */
  function RangeFragment(negated: bool, boundaries: seq<char>): (r: string)
    requires |boundaries| % 2 == 0
    ensures |r| >= 2 && r[0] == '[' && r[|r| - 1] == ']'
    ensures negated ==> r[1] == '^'
  {
    (if negated then "[^" else "[") + RangeBody(boundaries) + "]"
  }

  /** Reads `lo-hi` triples back as the boundary list; None when a separator is not `-`. */
  function DecodePairs(s: string): Option<seq<char>>
  {
    if |s| % 3 != 0 then None
    else if |s| == 0 then Some([])
    else
      var k := |s|;
      match DecodePairs(s[..k - 3])
      case None => None
      case Some(b) => if s[k - 2] == '-' then Some(b + [s[k - 3], s[k - 1]]) else None
  }

  /**
   * Reads a range class back: the class text is `[` or `[^`, then triples,
   * then `]`; the length (2 or 3 plus a multiple of 3) tells the two apart.
   */
  function DecodeRange(s: string): Option<(bool, seq<char>)>
  {
    if |s| < 2 || s[0] != '[' || s[|s| - 1] != ']' then None
    else
      var inner := s[1..|s| - 1];
      if |inner| % 3 == 0 then
        match DecodePairs(inner)
        case None => None
        case Some(b) => Some((false, b))
      else if inner[0] == '^' then
        match DecodePairs(inner[1..])
        case None => None
        case Some(b) => Some((true, b))
      else None
  }

  /** One more triple decodes to one more pair. */
  lemma DecodePairsSnoc(prev: string, pairs: seq<char>, lo: char, hi: char)
    requires |prev| % 3 == 0 && DecodePairs(prev) == Some(pairs)
    ensures DecodePairs(prev + [lo, '-', hi]) == Some(pairs + [lo, hi])
  {
    var s := prev + [lo, '-', hi];
    assert |s| == |prev| + 3;
    assert |s| % 3 == 0 && |s| != 0;
    assert s[..|s| - 3] == prev;
    assert s[|s| - 3] == lo && s[|s| - 2] == '-' && s[|s| - 1] == hi;
  }

  lemma {:induction false} DecodeRangeBody(boundaries: seq<char>)
    requires |boundaries| % 2 == 0
    ensures DecodePairs(RangeBody(boundaries)) == Some(boundaries)
  {
    if |boundaries| > 0 {
      var k := |boundaries|;
      var front := boundaries[..k - 2];
      var prev := RangeBody(front);
      assert RangeBody(boundaries) == prev + [boundaries[k - 2], '-', boundaries[k - 1]];
      assert |prev| % 3 == 0 by {
        TriplesPlusOne(|front| / 2);
      }
      DecodeRangeBody(front);
      DecodePairsSnoc(prev, front, boundaries[k - 2], boundaries[k - 1]);
      DropLastTwo(boundaries);
    }
  }

  /** The emitted class determines whether it was negated and every boundary pair. */
  lemma RangeFragmentRoundTrip(negated: bool, boundaries: seq<char>)
    requires |boundaries| % 2 == 0
    ensures DecodeRange(RangeFragment(negated, boundaries)) == Some((negated, boundaries))
  {
    var body := RangeBody(boundaries);
    assert RangeFragment(negated, boundaries) == (if negated then "[^" else "[") + body + "]";
    DecodeRangeBody(boundaries);
    TriplesPlusOne(|boundaries| / 2);
    DecodeClass(negated, body);
  }

  lemma DropLastTwo<T>(s: seq<T>)
    requires |s| >= 2
    ensures s[..|s| - 2] + [s[|s| - 2], s[|s| - 1]] == s
  {
  }

  lemma TriplesPlusOne(k: nat)
    ensures (3 * k) % 3 == 0 && (3 * k + 1) % 3 == 1
  {
  }

  lemma SnocThree<T>(s: seq<T>, a: T, b: T, c: T)
    ensures s + [a] + [b] + [c] == s + [a, b, c]
  {
  }

  lemma AppendAssociative<T>(x: seq<T>, y: seq<T>, z: seq<T>)
    ensures (x + y) + z == x + (y + z)
  {
  }

  /** Dropping the first and the last element of `a + b + c` leaves the inside. */
  lemma Unwrap<T>(a: seq<T>, b: seq<T>, c: seq<T>)
    requires |a| >= 1 && |c| <= 1
    ensures |c| == 1 ==> (a + b + c)[1..|a + b + c| - 1] == a[1..] + b
    ensures |c| == 0 ==> (a + b)[1..] == a[1..] + b
  {
  }

  /** A class whose inside decodes to pairs decodes to those pairs, with its negation. */
  lemma DecodeClass(negated: bool, body: string)
    requires |body| % 3 == 0 && (|body| + 1) % 3 == 1
    ensures DecodeRange((if negated then "[^" else "[") + body + "]")
              == match DecodePairs(body)
                 case None => None
                 case Some(b) => Some((negated, b))
  {
    var open := if negated then "[^" else "[";
    var s := open + body + "]";
    assert |s| >= 2 && s[0] == '[' && s[|s| - 1] == ']';
    Unwrap(open, body, "]");
    var inner := s[1..|s| - 1];
    assert inner == open[1..] + body;
    if negated {
      assert open[1..] == "^";
      Unwrap("^", body, "");
      assert |inner| == |body| + 1 && inner[0] == '^';
      assert inner[1..] == body;
    } else {
      assert open[1..] == "";
      assert inner == body;
    }
  }

  /** The length of the emitted class: 2 (or 3 when negated) plus 3 per pair. */
  lemma RangeFragmentLength(negated: bool, boundaries: seq<char>)
    requires |boundaries| % 2 == 0
    ensures |RangeFragment(negated, boundaries)| == (if negated then 3 else 2) + 3 * (|boundaries| / 2)
  {
  }

  // ---------------------------------------------------------------------------
  // Group names: the full match of `[a-zA-Z][a-zA-Z0-9]*`

  predicate IsAsciiLetter(c: char) {
    'a' <= c <= 'z' || 'A' <= c <= 'Z'
  }

  predicate IsAsciiAlphanumeric(c: char) {
    IsAsciiLetter(c) || IsDigit(c)
  }

  /** A non-empty name that starts with an ASCII letter and continues with ASCII letters or digits. */
  predicate IsValidGroupName(name: string)
    ensures IsValidGroupName(name) ==> '>' !in name
  {
    && |name| > 0
    && IsAsciiLetter(name[0])
    && forall i :: 1 <= i < |name| ==> IsAsciiAlphanumeric(name[i])
  }

  /** The states of a matcher for `[a-zA-Z][a-zA-Z0-9]*`. */
  datatype NameState = Start | InName | Rejected

  function NameStep(q: NameState, c: char): NameState
  {
    match q
    case Start => if IsAsciiLetter(c) then InName else Rejected
    case InName => if IsAsciiAlphanumeric(c) then InName else Rejected
    case Rejected => Rejected
  }

  function RunName(q: NameState, s: string): NameState
    decreases |s|
  {
    if |s| == 0 then q else RunName(NameStep(q, s[0]), s[1..])
  }

  /** Whether the whole of `name` matches the group-name pattern. */
  predicate MatchesGroupNamePattern(name: string)
    ensures MatchesGroupNamePattern(name) ==> |name| > 0
  {
    RunName(Start, name) == InName
  }

  lemma {:induction false} RunFromRejected(s: string)
    ensures RunName(Rejected, s) == Rejected
  {
    if |s| > 0 {
      RunFromRejected(s[1..]);
    }
  }

  lemma {:induction false} RunFromInName(s: string)
    ensures RunName(InName, s) == InName <==> forall i :: 0 <= i < |s| ==> IsAsciiAlphanumeric(s[i])
  {
    if |s| > 0 {
      if IsAsciiAlphanumeric(s[0]) {
        RunFromInName(s[1..]);
        assert forall i :: 1 <= i < |s| ==> s[i] == s[1..][i - 1];
      } else {
        RunFromRejected(s[1..]);
      }
    }
  }

  /** The matcher accepts exactly the valid group names. */
  lemma GroupNamePatternIsValidName(name: string)
    ensures MatchesGroupNamePattern(name) <==> IsValidGroupName(name)
  {
    if |name| > 0 {
      if IsAsciiLetter(name[0]) {
        RunFromInName(name[1..]);
        assert forall i :: 1 <= i < |name| ==> name[i] == name[1..][i - 1];
      } else {
        RunFromRejected(name[1..]);
      }
    }
  }

  // ---------------------------------------------------------------------------
  // Bounded repetition `{n,m}` / `{n,}`

  /** The repetition fragment; the upper bound `IntMax` renders as open-ended. */
  function CountFragment(n: nat, m: nat): (r: string)
    ensures |r| >= 3 && r[0] == '{' && r[|r| - 1] == '}'
    ensures m == IntMax <==> r[|r| - 2] == ','
  {
    "{" + Decimal(n) + "," + (if m == IntMax then "" else Decimal(m)) + "}"
  }

  predicate AllDigits(s: string) {
    forall i :: 0 <= i < |s| ==> IsDigit(s[i])
  }

  function IndexOf(s: string, c: char): (k: nat)
    ensures k <= |s|
    ensures k < |s| ==> s[k] == c
  {
    if |s| == 0 then 0 else if s[0] == c then 0 else 1 + IndexOf(s[1..], c)
  }

  function ReadBound(s: string): Option<nat>
  {
    if |s| > 0 && AllDigits(s) && ParseDecimal(s) >= 0 then Some(ParseDecimal(s)) else None
  }

  /**
   * Reads a repetition fragment back as its lower bound and, when present,
   * its upper bound.
   */
  function DecodeCount(s: string): Option<(nat, Option<nat>)>
  {
    if |s| < 2 || s[0] != '{' || s[|s| - 1] != '}' then None
    else
      var inner := s[1..|s| - 1];
      var k := IndexOf(inner, ',');
      if k == |inner| then None
      else
        match ReadBound(inner[..k])
        case None => None
        case Some(n) =>
          if k + 1 == |inner| then Some((n, None))
          else
            match ReadBound(inner[k + 1..])
            case None => None
            case Some(m) => Some((n, Some(m)))
  }

  lemma {:induction false} IndexOfDigitsThenComma(d: string, rest: string)
    requires AllDigits(d)
    ensures IndexOf(d + [','] + rest, ',') == |d|
  {
    if |d| > 0 {
      assert (d + [','] + rest)[1..] == d[1..] + [','] + rest;
      IndexOfDigitsThenComma(d[1..], rest);
    }
  }

  /** A rendered bound reads back as itself. */
  lemma ReadDecimal(n: nat)
    ensures ReadBound(Decimal(n)) == Some(n)
  {
    DecimalRoundTrip(n);
  }

  /** `{lower,upper}` with digit-only bounds splits at its one comma. */
  lemma DecodeBraces(lower: string, upper: string)
    requires AllDigits(lower) && AllDigits(upper)
    ensures DecodeCount("{" + lower + "," + upper + "}")
              == match ReadBound(lower)
                 case None => None
                 case Some(n) =>
                   if |upper| == 0 then Some((n, None))
                   else match ReadBound(upper)
                        case None => None
                        case Some(m) => Some((n, Some(m)))
  {
    var inner := lower + [','] + upper;
    var s := "{" + lower + "," + upper + "}";
    assert s == "{" + inner + "}";
    assert s[1..|s| - 1] == inner;
    IndexOfDigitsThenComma(lower, upper);
    assert inner[..|lower|] == lower;
    assert inner[|lower| + 1..] == upper;
  }

  /** The repetition fragment determines both bounds; `IntMax` as upper bound reads as no upper bound. */
  lemma CountFragmentRoundTrip(n: nat, m: nat)
    ensures DecodeCount(CountFragment(n, m)) == Some((n, if m == IntMax then None else Some(m)))
  {
    var upper := if m == IntMax then "" else Decimal(m);
    assert CountFragment(n, m) == "{" + Decimal(n) + "," + upper + "}";
    DecodeBraces(Decimal(n), upper);
    ReadDecimal(n);
    if m != IntMax {
      ReadDecimal(m);
    }
  }

  // ---------------------------------------------------------------------------
  // Pattern flags

  /**
   * The flags a compiled pattern can carry. Each stands for one bit of the
   * engine's flag word, so OR-ing the words of several flags is the union
   * of the flags.
   */
  datatype Flag = CaseInsensitive | Multiline | DotAll | Comments | UnicodeCase | UnixLines

  /** The OR-reduction of the requested flags, starting from no flag. */
  function CombineFlags(requested: seq<Flag>): (flags: set<Flag>)
    ensures forall f :: f in flags <==> f in requested
  {
    if |requested| == 0 then {}
    else CombineFlags(requested[..|requested| - 1]) + {requested[|requested| - 1]}
  }
}
