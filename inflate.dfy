/** The `inflate*` functions of the skill-map parser: they turn one
    section into a map header, a node (an activity or a reward) or the page
    metadata, reading its attributes by their lower-case names. Also the
    helpers they use: the boolean tokens `isTrue`/`isFalse`, the comma list
    `parseList`, and the prerequisite pattern of the `required`
    attribute. */
module Inflate {
  import opened Wrappers
  import opened Text
  import opened SkillMapTypes

  /** `section.attributes[name]`: `None` when absent. */
  function Attr(section: Section, name: string): Option<string> {
    if name in section.attributes then Some(section.attributes[name]) else None
  }

  /** `section.attributes["name"] || section.header`. */
  function NameOrHeader(section: Section): (r: string)
    ensures Truthy(Attr(section, "name")) ==> r == section.attributes["name"]
    ensures !Truthy(Attr(section, "name")) ==> r == section.header
  {
    var name := Attr(section, "name");
    if Truthy(name) then name.value else section.header
  }

  // ------------------------------------------------------------ booleans

  const TRUE_TOKENS: set<string> := {"1", "yes", "y", "on", "true"}
  const FALSE_TOKENS: set<string> := {"0", "no", "n", "off", "false"}

  /** `isTrue`: the value, lower-cased and trimmed, is a yes-token. */
  function IsTrue(value: Option<string>): (r: bool)
    ensures r ==> Truthy(value)
  {
    Truthy(value) && Trim(Lower(value.value)) in TRUE_TOKENS
  }

  /** `isFalse`: the value, lower-cased and trimmed, is a no-token. */
  function IsFalse(value: Option<string>): (r: bool)
    ensures r ==> Truthy(value)
  {
    Truthy(value) && Trim(Lower(value.value)) in FALSE_TOKENS
  }

  /** No value is both a yes-token and a no-token. */
  lemma NeverTrueAndFalse(value: Option<string>)
    ensures !(IsTrue(value) && IsFalse(value))
  {
    if Truthy(value) {
      TokensDisjoint(Trim(Lower(value.value)));
    }
  }

  lemma TokensDisjoint(t: string)
    ensures !(t in TRUE_TOKENS && t in FALSE_TOKENS)
  {
  }

  /** The tokens are recognised whatever their case and surrounding
      whitespace: what counts is the trimmed, lower-cased text. */
  lemma TokensIgnoreCaseAndSpace(value: string)
    requires value != ""
    ensures IsTrue(Some(value)) <==> Lower(Trim(value)) in TRUE_TOKENS
    ensures IsFalse(Some(value)) <==> Lower(Trim(value)) in FALSE_TOKENS
  {
    TrimLower(value);
  }

  // ------------------------------------------------------------ lists

  /** One part of a comma list, trimmed and lower-cased. */
  function Clean(part: string): (r: string)
    ensures r != "" ==> IsListItem(r)
    ensures r == "" <==> AllWhitespace(part)
  {
    var t := Trim(part);
    LowerIdempotent(t);
    if t == [] then Lower(t)
    else
      LowerCharKeepsWhitespace(t[0]);
      LowerCharKeepsWhitespace(t[|t| - 1]);
      Lower(t)
  }

  /** What `parseList` returns items of: non-empty, with no whitespace at
      either end, lower case. */
  predicate IsListItem(x: string) {
    x != "" && !IsWhitespace(x[0]) && !IsWhitespace(x[|x| - 1]) && Lower(x) == x
  }

  /** A list item is its own trim. */
  lemma ListItemTrimmed(x: string)
    requires IsListItem(x)
    ensures Trim(x) == x
  {
    assert LeadingWhitespace(x) == 0;
    assert TrailingWhitespace(x[0..]) == 0;
    assert x[0..][..|x| - 0] == x;
  }

  /** Every part cleaned. */
  function CleanAll(parts: seq<string>): (r: seq<string>)
    ensures |r| == |parts| && forall i :: 0 <= i < |parts| ==> r[i] == Clean(parts[i])
  {
    if |parts| == 0 then [] else [Clean(parts[0])] + CleanAll(parts[1..])
  }

  /** `filter(p => !!p)`: the non-empty strings, in order. */
  function NonBlank(items: seq<string>): (r: seq<string>)
    ensures forall x :: x in r <==> x != "" && x in items
  {
    if |items| == 0 then []
    else
      var rest := NonBlank(items[1..]);
      assert forall y :: y in items <==> y == items[0] || y in items[1..];
      if items[0] == "" then rest
      else
        assert forall y :: y in [items[0]] + rest <==> y == items[0] || y in rest;
        [items[0]] + rest
  }

  /** The non-empty cleaned parts, in order. */
  function CleanParts(parts: seq<string>): (r: seq<string>)
    ensures forall i :: 0 <= i < |r| ==> IsListItem(r[i])
    ensures forall x :: x in r <==> x != "" && x in CleanAll(parts)
  {
    if |parts| == 0 then []
    else
      var x := Clean(parts[0]);
      var rest := CleanParts(parts[1..]);
      assert CleanAll(parts) == [x] + CleanAll(parts[1..]);
      KeepNonBlank(x, rest, CleanAll(parts[1..]));
      if x == "" then rest
      else
        ConsItems(x, rest);
        [x] + rest
  }

  /** One step of dropping the empty strings: the non-empty members of
      `[x] + tail`. */
  lemma KeepNonBlank(x: string, rest: seq<string>, tail: seq<string>)
    requires forall y :: y in rest <==> y != "" && y in tail
    ensures x == "" ==> forall y :: y in rest <==> y != "" && y in [x] + tail
    ensures x != "" ==> forall y :: y in [x] + rest <==> y != "" && y in [x] + tail
  {
  }

  /** An item put in front of a list of items. */
  lemma ConsItems(x: string, rest: seq<string>)
    requires IsListItem(x) && forall i :: 0 <= i < |rest| ==> IsListItem(rest[i])
    ensures forall i :: 0 <= i < |[x] + rest| ==> IsListItem(([x] + rest)[i])
  {
  }

  /** Cleaning and dropping the empty parts in one pass gives what the
      source's `map` followed by `filter` gives: the non-empty cleaned
      parts, in their order. */
  lemma {:induction false} CleanPartsInOrder(parts: seq<string>)
    ensures CleanParts(parts) == NonBlank(CleanAll(parts))
  {
    if |parts| > 0 {
      assert CleanAll(parts)[1..] == CleanAll(parts[1..]);
      CleanPartsInOrder(parts[1..]);
    }
  }

  /** The position of the first occurrence of `x` in `s`. */
  function FirstIndex(s: seq<string>, x: string): (i: nat)
    requires x in s
    ensures i < |s| && s[i] == x && x !in s[..i]
  {
    if s[0] == x then 0
    else
      var i := 1 + FirstIndex(s[1..], x);
      assert s[..i] == [s[0]] + s[1..][..i - 1];
      i
  }

  /** Appending an element moves no first occurrence. */
  lemma FirstIndexAppend(s: seq<string>, z: string)
    ensures forall y :: y in s ==> y in s + [z] && FirstIndex(s + [z], y) == FirstIndex(s, y)
  {
    forall y | y in s
      ensures y in s + [z] && FirstIndex(s + [z], y) == FirstIndex(s, y)
    {
      assert (s + [z])[FirstIndex(s, y)] == y;
    }
  }

  /** The first occurrence of every item, in order (`Object.keys` of a
      dictionary filled in list order): the items of `s` without repeats,
      ordered by where each first occurs in `s`. */
  function Distinct(s: seq<string>): (r: seq<string>)
    ensures forall x :: x in r <==> x in s
    ensures forall i, j :: 0 <= i < j < |r| ==> r[i] != r[j]
    ensures forall i, j :: 0 <= i < j < |r| ==> r[i] in s && r[j] in s && FirstIndex(s, r[i]) < FirstIndex(s, r[j])
  {
    if |s| == 0 then []
    else
      var init := s[..|s| - 1];
      var last := s[|s| - 1];
      var d := Distinct(init);
      assert s == init + [last];
      FirstIndexAppend(init, last);
      if last in d then d
      else
        assert FirstIndex(s, last) == |s| - 1 by {
          assert last !in s[..|s| - 1];
        }
        d + [last]
  }

  lemma DistinctItems(s: seq<string>)
    requires forall i :: 0 <= i < |s| ==> IsListItem(s[i])
    ensures forall i :: 0 <= i < |Distinct(s)| ==> IsListItem(Distinct(s)[i])
  {
    var d := Distinct(s);
    forall i | 0 <= i < |d| ensures IsListItem(d[i]) {
      assert d[i] in s;
    }
  }

  /** The items `parseList` reads from a present list: its comma parts,
      trimmed and lower-cased, without the empty ones. */
  function ListItems(list: string): seq<string> {
    NonBlank(CleanAll(Split(list, ',')))
  }

  /** `parseList(list, includeDuplicates)`: all the items in order, or,
      without duplicates, each item once, in the order of its first
      occurrence. */
  function ParseList(list: Option<string>, includeDuplicates: bool): (r: seq<string>)
    ensures forall i :: 0 <= i < |r| ==> IsListItem(r[i])
    ensures forall x :: x in r <==> Truthy(list) && x != "" && x in CleanAll(Split(list.value, ','))
    ensures Truthy(list) && includeDuplicates ==> r == ListItems(list.value)
    ensures !includeDuplicates ==> forall i, j :: 0 <= i < j < |r| ==> r[i] != r[j]
    ensures Truthy(list) && !includeDuplicates ==> forall i, j :: 0 <= i < j < |r| ==>
      r[i] in ListItems(list.value) && r[j] in ListItems(list.value) &&
      FirstIndex(ListItems(list.value), r[i]) < FirstIndex(ListItems(list.value), r[j])
  {
    if !Truthy(list) then []
    else
      var parts := CleanParts(Split(list.value, ','));
      CleanPartsInOrder(Split(list.value, ','));
      assert parts == ListItems(list.value);
      if includeDuplicates then parts
      else
        DistinctItems(parts);
        Distinct(parts)
  }

  /** With duplicates kept, the list has one item per part that is not
      blank. */
  lemma {:induction false} CleanPartsCount(parts: seq<string>)
    ensures |CleanParts(parts)| == |parts| - BlankParts(parts)
  {
    if |parts| > 0 {
      CleanPartsCount(parts[1..]);
    }
  }

  /** How many parts are only whitespace. */
  function BlankParts(parts: seq<string>): nat {
    if |parts| == 0 then 0 else (if AllWhitespace(parts[0]) then 1 else 0) + BlankParts(parts[1..])
  }

  // ------------------------------------------------------------ prerequisites

  /** Number of decimal digits at the start of `s`. */
  function DigitRun(s: string): (n: nat)
    ensures n <= |s|
    ensures forall i :: 0 <= i < n ==> IsDigit(s[i])
    ensures n < |s| ==> !IsDigit(s[n])
  {
    if |s| == 0 || !IsDigit(s[0]) then 0
    else
      var n := 1 + DigitRun(s[1..]);
      assert forall i :: 1 <= i < n ==> s[i] == s[1..][i - 1];
      n
  }

  /** Number of spaces at the start of `s`. */
  function SpaceRun(s: string): (n: nat)
    ensures n <= |s|
    ensures forall i :: 0 <= i < n ==> s[i] == ' '
    ensures n < |s| ==> s[n] != ' '
  {
    if |s| == 0 || s[0] != ' ' then 0
    else
      var n := 1 + SpaceRun(s[1..]);
      assert forall i :: 1 <= i < n ==> s[i] == s[1..][i - 1];
      n
  }

  /** One part of `required`, read by the pattern `^\s*(?:(\d+) +)?(.+)$`:
      digits and spaces in front make a tag prerequisite, anything else
      names a map. The leading whitespace and the digits are taken
      greedily; the rest must be free of line terminators. When nothing
      follows the spaces, the engine backs off one space, and the tag is
      that space trimmed. A part that is empty, or only whitespace ending
      in a line terminator, or holds a line terminator after its leading
      whitespace, has no match: the source then reads a field of `null`. */
  function Requirement(part: string): (r: Result<Prerequisite, ParseError>)
    ensures r.Failure? ==> r.error == MalformedRequirement(part)
  {
    var l := LeadingWhitespace(part);
    var rest := part[l..];
    if rest == [] then
      if l > 0 && !IsLineTerminator(part[l - 1]) then Success(MapPrerequisite(""))
      else Failure(MalformedRequirement(part))
    else
      match ReadRest(rest)
      case None => Failure(MalformedRequirement(part))
      case Some(p) => Success(p)
  }

  /** The part after the leading whitespace: optional digits and spaces,
      then the rest of the line. */
  function ReadRest(rest: string): Option<Prerequisite> {
    if !NoLineTerminator(rest) then None
    else
      var d := DigitRun(rest);
      var sp := SpaceRun(rest[d..]);
      if d > 0 && sp > 0 && d + sp < |rest| then Some(TagPrerequisite(Trim(rest[d + sp..]), DigitsValue(rest[..d])))
      else if d > 0 && sp >= 2 && d + sp == |rest| then Some(TagPrerequisite("", DigitsValue(rest[..d])))
      else Some(MapPrerequisite(Trim(rest)))
  }

  predicate AllDigits(s: string) {
    forall i :: 0 <= i < |s| ==> IsDigit(s[i])
  }

  predicate AllSpaces(s: string) {
    forall i :: 0 <= i < |s| ==> s[i] == ' '
  }

  /** `part` matches `^\s*(?:(\d+) +)?(.+)$` with the leading whitespace
      `part[..l]`, the optional group's digits `part[l..l + d]` and spaces
      `part[l + d..l + g]` (both empty when the group is skipped), and the
      rest of the line `part[l + g..]`. */
  ghost predicate MatchesAt(part: string, l: nat, d: nat, g: nat) {
    && l + g < |part| && d <= g && (d == 0 <==> d == g)
    && AllWhitespace(part[..l])
    && AllDigits(part[l..l + d]) && AllSpaces(part[l + d..l + g])
    && NoLineTerminator(part[l + g..])
  }

  /** The pattern of `required` has some match in `part`. */
  ghost predicate RequirementMatches(part: string) {
    exists l: nat, d: nat, g: nat :: MatchesAt(part, l, d, g)
  }

  /** A part fails exactly when the pattern has no match in it: `exec`
      returns `null` and reading `match[1]` throws. */
  lemma RequirementFailsExactly(part: string)
    ensures Requirement(part).Failure? <==> !RequirementMatches(part)
  {
    if Requirement(part).Success? {
      SucceedingRequirementMatches(part);
    } else if RequirementMatches(part) {
      var l: nat, d: nat, g: nat :| MatchesAt(part, l, d, g);
      MatchedRequirementSucceeds(part, l, d, g);
    }
  }

  /** A part read successfully has a match: the leading whitespace (backed
      off by one when nothing else follows) and the rest of the line. */
  lemma SucceedingRequirementMatches(part: string)
    requires Requirement(part).Success?
    ensures RequirementMatches(part)
  {
    var l := LeadingWhitespace(part);
    if l == |part| {
      assert MatchesAt(part, l - 1, 0, 0) by {
        assert forall i :: 0 <= i < l - 1 ==> part[..l - 1][i] == part[..l][i];
      }
    } else {
      assert MatchesAt(part, l, 0, 0);
    }
  }

  /** A part with a match is read successfully. */
  lemma MatchedRequirementSucceeds(part: string, m: nat, d: nat, g: nat)
    requires MatchesAt(part, m, d, g)
    ensures Requirement(part).Success?
  {
    var l := LeadingWhitespace(part);
    var rest := part[l..];
    MatchHasNoTerminator(part, m, d, g);
    if m <= l && rest != [] {
      assert forall i :: 0 <= i < |rest| ==> rest[i] == part[m..][i + l - m];
    } else if m <= l {
      assert part[m..][|part| - 1 - m] == part[l - 1];
    }
  }

  /** A match runs from its leading whitespace to the end of the part
      without a line terminator: digits and spaces are not ones. */
  lemma MatchHasNoTerminator(part: string, l: nat, d: nat, g: nat)
    requires MatchesAt(part, l, d, g)
    ensures NoLineTerminator(part[l..])
  {
    forall i | 0 <= i < |part| - l
      ensures !IsLineTerminator(part[l..][i])
    {
      if i >= g {
        assert part[l..][i] == part[l + g..][i - g];
      } else {
        if i < d {
          assert part[l..][i] == part[l..l + d][i];
        } else {
          assert part[l..][i] == part[l + d..l + g][i - d];
        }
      }
    }
  }

  /** `n` spaces. */
  function Spaces(n: nat): (r: string)
    ensures |r| == n && AllSpaces(r)
  {
    seq(n, _ => ' ')
  }

  /** Digits followed by nothing but spaces: the engine backs off one
      space for `(.+)`, so with two or more spaces the tag is that one
      space trimmed, the empty tag. */
  lemma TagBackOff(ws: string, n: nat, k: nat)
    requires AllWhitespace(ws) && k >= 2
    ensures Requirement(ws + NatStr(n) + Spaces(k)) == Success(TagPrerequisite("", n))
  {
    var digits := NatStr(n);
    var rest := digits + Spaces(k);
    assert ws + digits + Spaces(k) == ws + rest;
    assert rest[0] == digits[0];
    RequirementSkipsWhitespace(ws, rest);
    DigitsThenSpaces(digits, k);
    DigitsValueNatStr(n);
  }

  lemma DigitsThenSpaces(digits: string, k: nat)
    requires digits != [] && AllDigits(digits) && k >= 2
    ensures ReadRest(digits + Spaces(k)) == Some(TagPrerequisite("", DigitsValue(digits)))
  {
    var rest := digits + Spaces(k);
    assert NoLineTerminator(rest) by {
      forall i | 0 <= i < |rest| ensures !IsLineTerminator(rest[i]) {
        if i >= |digits| {
          assert rest[i] == Spaces(k)[i - |digits|];
        } else {
          assert rest[i] == digits[i];
        }
      }
    }
    DigitRunOfPrefix(digits, Spaces(k));
    assert rest[|digits|..] == Spaces(k);
    assert rest[..|digits|] == digits;
  }

  /** Digits followed by a single space: the group cannot keep a space for
      itself, so the whole part names a map, the digits. */
  lemma DigitsThenOneSpace(ws: string, n: nat)
    requires AllWhitespace(ws)
    ensures Requirement(ws + NatStr(n) + " ") == Success(MapPrerequisite(NatStr(n)))
  {
    var digits := NatStr(n);
    var rest := digits + " ";
    assert ws + digits + " " == ws + rest;
    assert rest[0] == digits[0];
    RequirementSkipsWhitespace(ws, rest);
    DigitsThenSpace(digits);
  }

  lemma DigitsThenSpace(digits: string)
    requires digits != [] && AllDigits(digits)
    ensures ReadRest(digits + " ") == Some(MapPrerequisite(digits))
  {
    var rest := digits + " ";
    assert NoLineTerminator(rest) by {
      forall i | 0 <= i < |rest| ensures !IsLineTerminator(rest[i]) {
        if i < |digits| {
          assert rest[i] == digits[i];
        }
      }
    }
    DigitRunOfPrefix(digits, " ");
    assert rest[|digits|..] == " ";
    TrimTrailingSpace(digits);
  }

  /** One space after a string that neither starts nor ends with
      whitespace is trimmed away. */
  lemma TrimTrailingSpace(x: string)
    requires x != [] && !IsWhitespace(x[0]) && !IsWhitespace(x[|x| - 1])
    ensures Trim(x + " ") == x
  {
    var s := x + " ";
    var r := Trim(s);
    assert LeadingWhitespace(s) == 0 by {
      assert s[0] == x[0];
    }
    assert r != [];
    assert r == s[..|x|] == x;
  }

  /** Digits running straight into a name (`"12abc"`): the group needs a
      space after the digits, so the whole part names a map. */
  lemma DigitsRunIntoName(ws: string, digits: string, name: string)
    requires AllWhitespace(ws) && digits != [] && AllDigits(digits)
    requires name != [] && !IsDigit(name[0]) && name[0] != ' '
    requires Trim(digits + name) == digits + name && NoLineTerminator(digits + name)
    ensures Requirement(ws + digits + name) == Success(MapPrerequisite(digits + name))
  {
    var rest := digits + name;
    assert ws + digits + name == ws + rest;
    assert rest[0] == digits[0];
    RequirementSkipsWhitespace(ws, rest);
    DigitRunOfPrefix(digits, name);
    assert rest[|digits|..] == name;
  }

  /** Leading whitespace is skipped, unless the part is nothing but
      whitespace. */
  lemma RequirementSkipsWhitespace(ws: string, rest: string)
    requires AllWhitespace(ws)
    requires rest != [] && !IsWhitespace(rest[0])
    ensures Requirement(ws + rest) ==
      if ReadRest(rest).Some? then Success(ReadRest(rest).value) else Failure(MalformedRequirement(ws + rest))
  {
    LeadingWhitespaceOfPrefix(ws, rest);
    assert (ws + rest)[|ws|..] == rest;
  }

  /** `"<n> <tag>"` reads back as a tag prerequisite for `n` activities
      tagged `tag`, whatever whitespace precedes it. */
  lemma TagRequirement(ws: string, n: nat, tag: string)
    requires AllWhitespace(ws)
    requires tag != [] && Trim(tag) == tag && NoLineTerminator(tag)
    ensures Requirement(ws + NatStr(n) + " " + tag) == Success(TagPrerequisite(tag, n))
  {
    var digits := NatStr(n);
    var rest := digits + (" " + tag);
    assert ws + digits + " " + tag == ws + rest;
    assert rest[0] == digits[0];
    RequirementSkipsWhitespace(ws, rest);
    TagRest(digits, tag);
    DigitsValueNatStr(n);
  }

  lemma TagRest(digits: string, tag: string)
    requires digits != [] && forall i :: 0 <= i < |digits| ==> IsDigit(digits[i])
    requires tag != [] && Trim(tag) == tag && NoLineTerminator(tag)
    ensures ReadRest(digits + (" " + tag)) == Some(TagPrerequisite(tag, DigitsValue(digits)))
  {
    var rest := digits + (" " + tag);
    assert NoLineTerminator(rest) by {
      forall i | 0 <= i < |rest| ensures !IsLineTerminator(rest[i]) {
        if i > |digits| {
          assert rest[i] == tag[i - |digits| - 1];
        }
      }
    }
    DigitRunOfPrefix(digits, " " + tag);
    assert rest[|digits|..] == " " + tag;
    SpaceRunOfPrefix(tag);
    assert rest[..|digits|] == digits;
    assert rest[|digits| + 1..] == tag;
  }

  /** A name that does not start with a digit reads back as a map
      prerequisite for that name. */
  lemma MapRequirement(ws: string, name: string)
    requires AllWhitespace(ws)
    requires name != [] && Trim(name) == name && NoLineTerminator(name) && !IsDigit(name[0])
    ensures Requirement(ws + name) == Success(MapPrerequisite(name))
  {
    RequirementSkipsWhitespace(ws, name);
  }

  /** An empty part (`"a,,b"`, or a trailing comma) stops parsing. */
  lemma EmptyRequirementFails()
    ensures Requirement("") == Failure(MalformedRequirement(""))
  {
  }

  lemma {:induction false} DigitRunOfPrefix(digits: string, rest: string)
    requires forall i :: 0 <= i < |digits| ==> IsDigit(digits[i])
    requires rest != [] ==> !IsDigit(rest[0])
    ensures DigitRun(digits + rest) == |digits|
  {
    if digits == [] {
      assert digits + rest == rest;
    } else {
      assert (digits + rest)[1..] == digits[1..] + rest;
      DigitRunOfPrefix(digits[1..], rest);
    }
  }

  lemma SpaceRunOfPrefix(tag: string)
    requires tag != [] && !IsWhitespace(tag[0])
    ensures SpaceRun(" " + tag) == 1
  {
    assert (" " + tag)[1..] == tag;
  }

  /** The values of the results, in order, or the first failure. */
  function Collect<T>(results: seq<Result<T, ParseError>>): (r: Result<seq<T>, ParseError>)
    ensures r.Success? ==> |r.value| == |results| && forall i :: 0 <= i < |results| ==> results[i] == Success(r.value[i])
    ensures r.Failure? <==> exists i :: 0 <= i < |results| && results[i].Failure?
    ensures r.Failure? ==> exists i ::
      && 0 <= i < |results| && results[i] == Failure(r.error)
      && forall j :: 0 <= j < i ==> results[j].Success?
  {
    if |results| == 0 then Success([])
    else
      var init := Collect(results[..|results| - 1]);
      assert forall i :: 0 <= i < |results| - 1 ==> results[..|results| - 1][i] == results[i];
      if init.Failure? then Failure(init.error)
      else
        var last := results[|results| - 1];
        if last.Failure? then Failure(last.error) else Success(init.value + [last.value])
  }

  /** One more result: the earlier failure, or this one, or one more value. */
  lemma CollectAppend<T>(results: seq<Result<T, ParseError>>, last: Result<T, ParseError>)
    ensures Collect(results + [last]) ==
      if Collect(results).Failure? then Failure(Collect(results).error)
      else if last.Failure? then Failure(last.error)
      else Success(Collect(results).value + [last.value])
  {
    assert (results + [last])[..|results|] == results;
  }

  /** Once a prefix has failed, the whole sequence fails the same way. */
  lemma {:induction false} CollectFailsFromPrefix<T>(results: seq<Result<T, ParseError>>, n: nat)
    requires n <= |results| && Collect(results[..n]).Failure?
    ensures Collect(results) == Collect(results[..n])
  {
    if n < |results| {
      var init := results[..|results| - 1];
      assert init[..n] == results[..n];
      CollectFailsFromPrefix(init, n);
    } else {
      assert results[..n] == results;
    }
  }

  /** Each part of `required` read as a prerequisite. */
  function Requirements(parts: seq<string>): (r: seq<Result<Prerequisite, ParseError>>)
    ensures |r| == |parts| && forall i :: 0 <= i < |parts| ==> r[i] == Requirement(parts[i])
  {
    seq(|parts|, i requires 0 <= i < |parts| => Requirement(parts[i]))
  }

  // ------------------------------------------------------------ maps

  /** `section.attributes["allowcodecarryover"] ? !isFalse(...) : true`. */
  function AllowsCarryover(section: Section): (r: bool) {
    var attr := Attr(section, "allowcodecarryover");
    if Truthy(attr) then !IsFalse(attr) else true
  }

  /** Carryover is allowed unless the attribute is a no-token. */
  lemma AllowsCarryoverUnlessFalse(section: Section)
    ensures AllowsCarryover(section) <==> !IsFalse(Attr(section, "allowcodecarryover"))
  {
  }

  /** `inflateSkillMap(section)`: the map's id is the lower-cased header;
      `required`, when present, is a comma list of prerequisites. */
  function MapHeaderOf(section: Section): (r: Result<MapHeader, ParseError>)
    ensures r.Success? ==>
      && r.value.mapId == Lower(section.header)
      && r.value.displayName == NameOrHeader(section)
      && r.value.description == Attr(section, "description")
      && r.value.completionUrl == Attr(section, "completionurl")
      && r.value.allowCodeCarryover == AllowsCarryover(section)
    ensures !Truthy(Attr(section, "required")) ==> r.Success? && r.value.prerequisites == []
    ensures Truthy(Attr(section, "required")) ==>
      var parts := Split(section.attributes["required"], ',');
      && (r.Success? <==> Collect(Requirements(parts)).Success?)
      && (r.Success? ==> r.value.prerequisites == Collect(Requirements(parts)).value)
  {
    var required := Attr(section, "required");
    var prerequisites := if Truthy(required) then Collect(Requirements(Split(required.value, ','))) else Success([]);
    if prerequisites.Failure? then Failure(prerequisites.error)
    else
      Success(MapHeader(Lower(section.header), NameOrHeader(section), Attr(section, "description"),
                        Attr(section, "completionurl"), prerequisites.value, AllowsCarryover(section)))
  }

  /** The source's `inflateSkillMap`, with its loop over the parts of
      `required`. */
  method InflateSkillMap(section: Section) returns (r: Result<MapHeader, ParseError>)
    ensures r == MapHeaderOf(section)
  {
    var prerequisites: seq<Prerequisite> := [];
    var required := Attr(section, "required");
    if Truthy(required) {
      var parts := Split(required.value, ',');
      ghost var results := Requirements(parts);
      var i := 0;
      while i < |parts|
        invariant i <= |parts|
        invariant Collect(results[..i]) == Success(prerequisites)
      {
        assert results[..i + 1][..i] == results[..i];
        var p := Requirement(parts[i]);
        if p.Failure? {
          CollectFailsFromPrefix(results, i + 1);
          return Failure(p.error);
        }
        prerequisites := prerequisites + [p.value];
        i := i + 1;
      }
      assert results[..i] == results;
    }
    r := Success(MapHeader(Lower(section.header), NameOrHeader(section), Attr(section, "description"),
                           Attr(section, "completionurl"), prerequisites, AllowsCarryover(section)));
  }

  // ------------------------------------------------------------ nodes

  /** `type` is `tutorial`, the only accepted activity type, in any case. */
  predicate IsTutorial(section: Section) {
    var t := Attr(section, "type");
    Truthy(t) && Lower(t.value) == "tutorial"
  }

  /** `editor`, when present: `py`, `blocks` or `js` in any case, and
      `blocks` for anything else. */
  function EditorOf(section: Section): (r: Option<Editor>)
    ensures r.None? <==> !Truthy(Attr(section, "editor"))
    ensures r == Some(Py) <==> Truthy(Attr(section, "editor")) && Lower(section.attributes["editor"]) == "py"
    ensures r == Some(Js) <==> Truthy(Attr(section, "editor")) && Lower(section.attributes["editor"]) == "js"
  {
    var e := Attr(section, "editor");
    if !Truthy(e) then None
    else
      var lower := Lower(e.value);
      if lower == "py" then Some(Py) else if lower == "js" then Some(Js) else Some(Blocks)
  }

  /** `inflateActivity(section, base)`: an activity needs a `url` and a
      `tutorial` type; its `next` and `tags` are comma lists. */
  function InflateActivity(section: Section): (r: Result<MapNode, ParseError>)
    ensures r.Success? <==> Truthy(Attr(section, "url")) && IsTutorial(section)
    ensures !Truthy(Attr(section, "url")) ==> r == Failure(MissingUrl(Lower(section.header)))
    ensures Truthy(Attr(section, "url")) && !IsTutorial(section) ==> r == Failure(MissingType(Lower(section.header)))
    ensures r.Success? ==>
      && r.value.Activity?
      && r.value.activityId == Lower(section.header)
      && r.value.url == section.attributes["url"]
      && r.value.activityType == "tutorial"
      && r.value.displayName == NameOrHeader(section)
      && r.value.imageUrl == Attr(section, "imageurl")
      && r.value.description == Attr(section, "description")
      && r.value.nextIds == ParseList(Attr(section, "next"), false)
      && r.value.tags == ParseList(Attr(section, "tags"), false)
      && r.value.allowCodeCarryover == AllowsCarryover(section)
      && r.value.editor == EditorOf(section)
  {
    var id := Lower(section.header);
    var url := Attr(section, "url");
    if !Truthy(url) then Failure(MissingUrl(id))
    else if !IsTutorial(section) then Failure(MissingType(id))
    else
      Success(Activity(id, Attr(section, "imageurl"), NameOrHeader(section), ParseList(Attr(section, "next"), false),
                       Attr(section, "description"), url.value, ParseList(Attr(section, "tags"), false),
                       AllowsCarryover(section), "tutorial", EditorOf(section)))
  }

  /** `kind` is `reward` or `completion`. */
  predicate IsRewardKind(section: Section) {
    Attr(section, "kind") == Some("reward") || Attr(section, "kind") == Some("completion")
  }

  /** `inflateMapNode(section)`: a reward for a `reward` or `completion`
      kind, an activity otherwise. */
  function InflateMapNode(section: Section): (r: Result<MapNode, ParseError>)
    ensures IsRewardKind(section) ==> r.Success? && r.value.Reward? && r.value.kind == section.attributes["kind"]
    ensures !IsRewardKind(section) ==> r == InflateActivity(section)
    ensures r.Success? ==>
      && r.value.activityId == Lower(section.header)
      && r.value.displayName == NameOrHeader(section)
      && r.value.imageUrl == Attr(section, "imageurl")
      && r.value.nextIds == ParseList(Attr(section, "next"), false)
  {
    if IsRewardKind(section) then
      Success(Reward(Lower(section.header), Attr(section, "imageurl"), NameOrHeader(section),
                     ParseList(Attr(section, "next"), false), section.attributes["kind"]))
    else InflateActivity(section)
  }

  /** `inflateMetadata(section)`. */
  function InflateMetadata(section: Section): (r: PageMetadata)
    ensures r.title == NameOrHeader(section)
    ensures r.description == Attr(section, "description") && r.infoUrl == Attr(section, "infourl")
  {
    PageMetadata(NameOrHeader(section), Attr(section, "description"), Attr(section, "infourl"))
  }
}
