/**
 * The FluentValidation rule chain for a create-application request
 * (svc/Validation/CreateApplicationRequestValidator.cs).
 *
 * FluentValidation's default cascade mode lets every validator of a rule
 * run, so one request can fail several checks; the messages come out in
 * rule order: the three name checks, then the description check.
 */
module Validation {
  import opened Wrappers

  /** The POST body: the name is always present, the description may be null. */
  datatype CreateApplicationRequest = CreateApplicationRequest(name: string, description: Option<string>)

  const NameRequiredMessage := "Application name is required"
  const NameLengthMessage := "Application name must be between 1 and 255 characters"
  // The pieces join into the source's message exactly; it is split only so
  // that the solver can see that no piece, hence no message, holds a ';'.
  const NameCharsetMessage := "Application name can only " + "contain alphanumeric " + "characters, underscores, " + "and hyphens"
  const DescriptionLengthMessage := "Description must not exceed 1000 characters"

  const MinNameLength := 1
  const MaxNameLength := 255
  const MaxDescriptionLength := 1000

  /** .NET `char.IsWhiteSpace`: the Unicode space, line and paragraph separators, U+0009..U+000D and U+0085. */
  predicate IsWhiteSpace(c: char) {
    var n := c as int;
    || n == 0x20 || 0x09 <= n <= 0x0D || n == 0x85 || n == 0xA0 || n == 0x1680
    || 0x2000 <= n <= 0x200A || n == 0x2028 || n == 0x2029 || n == 0x202F
    || n == 0x205F || n == 0x3000
  }

  /** .NET `string.IsNullOrWhiteSpace` on a non-null string: empty or all white space. */
  predicate IsBlank(s: string) {
    forall i :: 0 <= i < |s| ==> IsWhiteSpace(s[i])
  }

  /** One character of the class `[a-zA-Z0-9_\-]`. */
  predicate IsNameChar(c: char) {
    'a' <= c <= 'z' || 'A' <= c <= 'Z' || '0' <= c <= '9' || c == '_' || c == '-'
  }

  predicate OnlyNameChars(s: string) {
    forall i :: 0 <= i < |s| ==> IsNameChar(s[i])
  }

  /** `NotEmpty()`: fails on null, "" and white-space-only strings. */
  predicate PassesNotEmpty(name: string) {
    !IsBlank(name)
  }

  /** `Length(1, 255)`: fails on a string outside those bounds (the empty one included). */
  predicate PassesLength(name: string) {
    MinNameLength <= |name| <= MaxNameLength
  }

  /** The intended charset rule: one or more characters, all of `[a-zA-Z0-9_-]`. */
  predicate PassesCharset(name: string) {
    |name| >= 1 && OnlyNameChars(name)
  }

  /**
   * `Regex.IsMatch(name, "^[a-zA-Z0-9_\-]+$")` as .NET evaluates it with
   * default options: `^` anchors at position 0, the class run covers
   * `name[..k]` with `k >= 1`, and `$` matches at the end of the string OR
   * just before a final '\n'.
   */
  predicate MatchesNamePattern(name: string) {
    exists k :: 1 <= k <= |name| && OnlyNameChars(name[..k]) && (k == |name| || (k == |name| - 1 && name[k] == '\n'))
  }

  /** The `MaximumLength(1000)` check, applied only `When` the description is not null or white space. */
  predicate PassesDescription(description: Option<string>) {
    description.None? || IsBlank(description.value) || |description.value| <= MaxDescriptionLength
  }

  /** The name rule chain, given the verdict of its `Matches` step. */
  function NameErrors(name: string, charsetOk: bool): seq<string> {
    (if PassesNotEmpty(name) then [] else [NameRequiredMessage])
    + (if PassesLength(name) then [] else [NameLengthMessage])
    + (if charsetOk then [] else [NameCharsetMessage])
  }

  function DescriptionErrors(description: Option<string>): seq<string> {
    if PassesDescription(description) then [] else [DescriptionLengthMessage]
  }

  /** Position of a message in the validator's rule order. */
  function RuleRank(message: string): nat {
    if message == NameRequiredMessage then 0
    else if message == NameLengthMessage then 1
    else if message == NameCharsetMessage then 2
    else if message == DescriptionLengthMessage then 3
    else 4
  }

  /** True when the messages follow rule order, each at most once. */
  predicate InRuleOrder(messages: seq<string>) {
    forall i, j :: 0 <= i < j < |messages| ==> RuleRank(messages[i]) < RuleRank(messages[j])
  }

  /** A name that every name check accepts: 1..255 characters of `[a-zA-Z0-9_-]`. */
  predicate ValidName(name: string) {
    MinNameLength <= |name| <= MaxNameLength && OnlyNameChars(name)
  }

  /** No message contains ';', so a "; "-joined list of them can be split again. */
  lemma MessagesHaveNoSemicolon()
    ensures ';' !in NameRequiredMessage && ';' !in NameLengthMessage
    ensures ';' !in NameCharsetMessage && ';' !in DescriptionLengthMessage
  {
    var d := DescriptionLengthMessage;
    forall i | 0 <= i < |d| ensures d[i] != ';' {
    }
  }

  /** A nonempty run of name characters is never blank. */
  lemma NameCharsNotBlank(name: string)
    ensures PassesCharset(name) ==> PassesNotEmpty(name)
  {
    if PassesCharset(name) {
      assert IsNameChar(name[0]);
    }
  }

  /**
   * The validator, with the charset rule as intended (see
   * `ValidateAsWritten` for the rule as the source's pattern evaluates it).
   * Each failing check contributes its own message, in rule order, and the
   * request is valid exactly when the name is 1..255 name characters and
   * the description is null, blank or at most 1000 characters.
   */
  function Validate(req: CreateApplicationRequest): (errors: seq<string>)
    ensures NameRequiredMessage in errors <==> IsBlank(req.name)
    ensures NameLengthMessage in errors <==> !(MinNameLength <= |req.name| <= MaxNameLength)
    ensures NameCharsetMessage in errors <==> !PassesCharset(req.name)
    ensures DescriptionLengthMessage in errors <==>
      req.description.Some? && !IsBlank(req.description.value) && |req.description.value| > MaxDescriptionLength
    ensures forall m :: m in errors ==> RuleRank(m) < 4
    ensures InRuleOrder(errors)
    ensures errors == [] <==> ValidName(req.name) && PassesDescription(req.description)
  {
    NameCharsNotBlank(req.name);
    NameErrors(req.name, PassesCharset(req.name)) + DescriptionErrors(req.description)
  }

  /**
   * The name rule and the description rule do not interact: a request's
   * errors are its name's errors (as if it had no description) followed by
   * its description's errors (as if its name were a valid one).
   */
  lemma RulesIndependent(name: string, description: Option<string>)
    ensures Validate(CreateApplicationRequest(name, description)) ==
      Validate(CreateApplicationRequest(name, None)) + Validate(CreateApplicationRequest("app", description))
  {
    assert PassesCharset("app") by {
      assert IsNameChar("app"[0]) && IsNameChar("app"[1]) && IsNameChar("app"[2]);
    }
  }

  /** An empty name fails all three name checks, in rule order. */
  lemma EmptyNameFailsEveryNameCheck(description: Option<string>)
    ensures Validate(CreateApplicationRequest("", description))[..3] ==
      [NameRequiredMessage, NameLengthMessage, NameCharsetMessage]
  {
  }

  /**
   * The validator as the source's pattern evaluates it: identical to
   * `Validate` except that the `Matches` step uses .NET regex semantics.
   */
  function ValidateAsWritten(req: CreateApplicationRequest): (errors: seq<string>)
    ensures NameRequiredMessage in errors <==> IsBlank(req.name)
    ensures NameLengthMessage in errors <==> !(MinNameLength <= |req.name| <= MaxNameLength)
    ensures NameCharsetMessage in errors <==> !MatchesNamePattern(req.name)
    ensures DescriptionLengthMessage in errors <==>
      req.description.Some? && !IsBlank(req.description.value) && |req.description.value| > MaxDescriptionLength
    ensures forall m :: m in errors ==> RuleRank(m) < 4
    ensures InRuleOrder(errors)
    ensures errors == [] <==>
      PassesLength(req.name) && MatchesNamePattern(req.name) && PassesDescription(req.description)
  {
    PatternMatchNotBlank(req.name);
    NameErrors(req.name, MatchesNamePattern(req.name)) + DescriptionErrors(req.description)
  }

  /** A name the source's pattern matches starts with a name character, so it is not blank. */
  lemma PatternMatchNotBlank(name: string)
    ensures MatchesNamePattern(name) ==> PassesNotEmpty(name)
  {
    if MatchesNamePattern(name) {
      var k :| 1 <= k <= |name| && OnlyNameChars(name[..k]) && (k == |name| || (k == |name| - 1 && name[k] == '\n'));
      assert IsNameChar(name[..k][0]);
    }
  }

  /**
   * The source's pattern accepts exactly the intended names plus those
   * names followed by a single '\n'.
   */
  lemma MatchesNamePatternExactly(name: string)
    ensures MatchesNamePattern(name) <==>
      PassesCharset(name) || (|name| >= 2 && name[|name| - 1] == '\n' && PassesCharset(name[..|name| - 1]))
  {
    var n := |name|;
    if PassesCharset(name) {
      assert name[..n] == name;
    } else if n >= 2 && name[n - 1] == '\n' && PassesCharset(name[..n - 1]) {
      assert name[n - 1] == '\n';
    }
    if MatchesNamePattern(name) {
      var k :| 1 <= k <= n && OnlyNameChars(name[..k]) && (k == n || (k == n - 1 && name[k] == '\n'));
      if k == n {
        assert name[..k] == name;
      }
    }
  }

  /**
   * Where the validator as written and the corrected one disagree: exactly
   * on names that are a valid run of name characters followed by one '\n'.
   */
  lemma AsWrittenDiffersOnlyOnTrailingNewline(req: CreateApplicationRequest)
    ensures ValidateAsWritten(req) != Validate(req) <==>
      |req.name| >= 2 && req.name[|req.name| - 1] == '\n' && PassesCharset(req.name[..|req.name| - 1])
  {
    MatchesNamePatternExactly(req.name);
    var n := |req.name|;
    if n >= 2 && req.name[n - 1] == '\n' && PassesCharset(req.name[..n - 1]) {
      assert !IsNameChar(req.name[n - 1]);
      assert !PassesCharset(req.name);
      assert NameCharsetMessage in Validate(req);
    }
  }

  /** A concrete request the source accepts although its name holds a newline. */
  lemma TrailingNewlineAccepted()
    ensures ValidateAsWritten(CreateApplicationRequest("app\n", None)) == []
    ensures Validate(CreateApplicationRequest("app\n", None)) == [NameCharsetMessage]
  {
    var name := "app\n";
    assert OnlyNameChars(name[..3]);
    assert MatchesNamePattern(name);
    assert !IsNameChar(name[3]);
    assert !IsBlank(name) by { assert !IsWhiteSpace(name[0]); }
  }
}
