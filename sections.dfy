/** `getSectionsFromText`: cuts a skill-map text into sections. A line of
    `#`s opens a section; a `- key: value` (or `* key: value`) bullet
    starts an attribute of the open section; a bullet with no key continues
    the attribute's value, and a blank line adds a line break to it.

    The two regular expressions of the source are written out as string
    functions (`MatchHeader`, `MatchKey`) that pick the match a
    backtracking engine picks; `ScanLine` is one turn of the loop over
    lines, and the method `GetSectionsFromText` is proved to compute
    `SectionsOf`. */
module Sections {
  import opened Wrappers
  import opened Text
  import opened SkillMapTypes

  // ------------------------------------------------------------ /^(#+)\s*(.+)$/

  /** Number of `#` characters at the start of `s`. */
  function Hashes(s: string): (n: nat)
    ensures n <= |s|
    ensures forall i :: 0 <= i < n ==> s[i] == '#'
    ensures n < |s| ==> s[n] != '#'
  {
    if |s| == 0 || s[0] != '#' then 0
    else
      var n := 1 + Hashes(s[1..]);
      assert forall i :: 1 <= i < n ==> s[i] == s[1..][i - 1];
      n
  }

  /** `line` is `#`s (h of them), whitespace, then a non-empty `header`
      with no line terminator: the shape the header pattern accepts. */
  predicate HeaderShape(line: string, h: nat, header: string) {
    && 1 <= h && h + |header| <= |line|
    && (forall i :: 0 <= i < h ==> line[i] == '#')
    && AllWhitespace(line[h..|line| - |header|])
    && line[|line| - |header|..] == header
    && header != [] && NoLineTerminator(header)
  }

  /** The header pattern applied to a line: the number of `#`s and the
      header text. The `#`s and the whitespace are taken greedily; when
      nothing is left after them, the engine backs off by one character,
      so the header is the last whitespace character, or the last `#`. */
  function MatchHeader(line: string): Option<(nat, string)> {
    var h := Hashes(line);
    if h == 0 then None
    else
      var w := LeadingWhitespace(line[h..]);
      var t := line[h + w..];
      if t != [] then
        if NoLineTerminator(t) then Some((h, t)) else None
      else if w > 0 then
        var c := line[|line| - 1];
        if !IsLineTerminator(c) then Some((h, [c])) else None
      else if h >= 2 then Some((h - 1, "#"))
      else None
  }

  /** What `MatchHeader` returns has the header shape. */
  lemma MatchHeaderShape(line: string)
    ensures var r := MatchHeader(line);
      r.Some? ==> HeaderShape(line, r.value.0, r.value.1)
  {
    var h := Hashes(line);
    if h > 0 {
      var w := LeadingWhitespace(line[h..]);
      if h + w < |line| {
        if NoLineTerminator(line[h + w..]) {
          MatchAfterWhitespace(line, h, w);
          MatchShape(line, h, h + w);
        }
      } else if w > 0 {
        if !IsLineTerminator(line[|line| - 1]) {
          LastWhitespaceShape(line, h, w);
        }
      } else if h >= 2 {
        OnlyHashes(line, h);
      }
    }
  }

  /** `#`s and whitespace only: the last whitespace character is the
      header. */
  lemma LastWhitespaceShape(line: string, h: nat, w: nat)
    requires h == Hashes(line) && 1 <= h
    requires w == LeadingWhitespace(line[h..]) && h + w == |line| && w > 0
    requires !IsLineTerminator(line[|line| - 1])
    ensures HeaderShape(line, h, [line[|line| - 1]])
  {
    MatchOnLastWhitespace(line, h, w);
    MatchShape(line, h, |line| - 1);
    assert line[|line| - 1..] == [line[|line| - 1]];
  }

  /** A line of two or more `#`s and nothing else: the last `#` is the
      header. */
  lemma OnlyHashes(line: string, h: nat)
    requires h == Hashes(line) && h >= 2
    requires LeadingWhitespace(line[h..]) == 0 && h == |line|
    ensures HeaderShape(line, h - 1, "#")
  {
    assert MatchesAt(line, h - 1, h - 1);
    MatchShape(line, h - 1, h - 1);
    assert line[h - 1..] == "#";
  }

  /** A match of the pattern is a line of header shape. */
  lemma MatchShape(line: string, h: nat, k: nat)
    requires MatchesAt(line, h, k)
    ensures HeaderShape(line, h, line[k..])
  {
    assert line[h..|line| - |line[k..]|] == line[h..k];
  }

  /** `MatchHeader` finds a match exactly when the pattern has one. */
  lemma MatchHeaderIsMatch(line: string)
    ensures MatchHeader(line).Some? <==> exists h: nat, k: nat :: MatchesAt(line, h, k)
  {
    var h := Hashes(line);
    if h == 0 {
      NoMatchWithoutHash(line);
    } else {
      var w := LeadingWhitespace(line[h..]);
      if h + w < |line| {
        if NoLineTerminator(line[h + w..]) {
          MatchAfterWhitespace(line, h, w);
        } else {
          NoMatchWithTerminator(line, h, w);
        }
      } else if w > 0 {
        if !IsLineTerminator(line[|line| - 1]) {
          MatchOnLastWhitespace(line, h, w);
        } else {
          NoMatchEndingInTerminator(line, h);
        }
      } else if h >= 2 {
        assert MatchesAt(line, h - 1, h - 1);
      }
    }
  }

  lemma NoMatchWithoutHash(line: string)
    requires Hashes(line) == 0
    ensures forall h: nat, k: nat :: !MatchesAt(line, h, k)
  {
    forall h: nat, k: nat ensures !MatchesAt(line, h, k) {
      if 1 <= h <= k < |line| {
        assert line[0] != '#';
      }
    }
  }

  lemma MatchAfterWhitespace(line: string, h: nat, w: nat)
    requires h == Hashes(line) && 1 <= h
    requires w == LeadingWhitespace(line[h..]) && h + w < |line|
    requires NoLineTerminator(line[h + w..])
    ensures MatchesAt(line, h, h + w)
  {
    assert line[h..h + w] == line[h..][..w];
  }

  lemma MatchOnLastWhitespace(line: string, h: nat, w: nat)
    requires h == Hashes(line) && 1 <= h
    requires w == LeadingWhitespace(line[h..]) && h + w == |line| && w > 0
    requires !IsLineTerminator(line[|line| - 1])
    ensures MatchesAt(line, h, |line| - 1)
  {
    var ws := line[h..];
    assert ws[..w] == ws;
    assert AllWhitespace(ws);
    var head := line[h..|line| - 1];
    forall i | 0 <= i < |head| ensures IsWhitespace(head[i]) {
      assert head[i] == ws[i];
    }
    assert line[|line| - 1..] == [line[|line| - 1]];
  }

  /** The header pattern matches `line` with `h` `#`s and the header
      starting at `k`. */
  predicate MatchesAt(line: string, h: nat, k: nat) {
    && 1 <= h <= k < |line|
    && (forall i :: 0 <= i < h ==> line[i] == '#')
    && AllWhitespace(line[h..k])
    && NoLineTerminator(line[k..])
  }

  lemma NoMatchWithTerminator(line: string, h: nat, w: nat)
    requires h == Hashes(line) && 1 <= h
    requires w == LeadingWhitespace(line[h..])
    requires h + w <= |line| && !NoLineTerminator(line[h + w..])
    ensures forall h': nat, k: nat :: !MatchesAt(line, h', k)
  {
    var i :| 0 <= i < |line[h + w..]| && IsLineTerminator(line[h + w..][i]);
    var j := h + w + i;
    forall h': nat, k: nat ensures !MatchesAt(line, h', k) {
      if 1 <= h' <= k < |line| {
        if k <= j {
          assert line[k..][j - k] == line[j];
        } else if h' > h {
          assert line[h] != '#';
        } else {
          assert line[h'..k][h + w - h'] == line[h..][w];
        }
      }
    }
  }

  lemma NoMatchEndingInTerminator(line: string, h: nat)
    requires h == Hashes(line) && 1 <= h < |line|
    requires IsLineTerminator(line[|line| - 1])
    ensures forall h': nat, k: nat :: !MatchesAt(line, h', k)
  {
    forall h': nat, k: nat ensures !MatchesAt(line, h', k) {
      if k < |line| {
        assert line[k..][|line| - 1 - k] == line[|line| - 1];
      }
    }
  }

  /** The kind a number of `#`s gives. */
  function KindOf(hashes: nat): HeaderKind {
    if hashes == 1 then Single else if hashes == 2 then Double else Triple
  }

  /** `#`s, optional whitespace and a header that starts with something
      other than whitespace (and other than `#` when no whitespace
      separates them) is read as exactly that header. */
  lemma HeaderLineMatches(h: nat, ws: string, header: string)
    requires 1 <= h && AllWhitespace(ws)
    requires header != [] && NoLineTerminator(header) && !IsWhitespace(header[0])
    requires ws == [] ==> header[0] != '#'
    ensures MatchHeader(seq(h, _ => '#') + ws + header) == Some((h, header))
  {
    var line := seq(h, _ => '#') + ws + header;
    assert line[h] == if ws == [] then header[0] else ws[0];
    assert Hashes(line) == h by {
      HashesOfPrefix(line, h);
    }
    assert line[h..] == ws + header;
    LeadingWhitespaceOfPrefix(ws, header);
    assert line[h + |ws|..] == header;
  }

  lemma {:induction false} HashesOfPrefix(line: string, h: nat)
    requires h <= |line| && forall i :: 0 <= i < h ==> line[i] == '#'
    requires h < |line| ==> line[h] != '#'
    ensures Hashes(line) == h
  {
    if h > 0 {
      HashesOfPrefix(line[1..], h - 1);
    }
  }

  // ------------------------------------------------------------ /^[*-]\s+(?:([^:]+):)?(.*)$/

  /** Position of the first `:` in `s`, or `|s|`. */
  function FirstColon(s: string): (p: nat)
    ensures p <= |s|
    ensures forall i :: 0 <= i < p ==> s[i] != ':'
    ensures p < |s| ==> s[p] == ':'
  {
    if |s| == 0 || s[0] == ':' then 0
    else
      var p := 1 + FirstColon(s[1..]);
      assert forall i :: 1 <= i < p ==> s[i] == s[1..][i - 1];
      p
  }

  predicate IsBullet(c: char) {
    c == '*' || c == '-'
  }

  /** `line` starts with a bullet and whitespace, up to position `n`. */
  predicate BulletPrefix(line: string, n: int) {
    2 <= n <= |line| && IsBullet(line[0]) && AllWhitespace(line[1..n])
  }

  /** `line` is a bullet, whitespace, `key`, a colon and `value`. */
  predicate KeyShape(line: string, key: string, value: string) {
    && BulletPrefix(line, |line| - |value| - 1 - |key|)
    && line[|line| - |value| - 1 - |key|..] == key + [':'] + value
    && key != [] && ':' !in key && NoLineTerminator(value)
  }

  /** `line` is a bullet, whitespace and `value`. */
  predicate PlainShape(line: string, value: string) {
    && BulletPrefix(line, |line| - |value|)
    && line[|line| - |value|..] == value
    && NoLineTerminator(value)
  }

  /** The bullet pattern applied to a line: `Some((Some(key), value))`
      for a bullet with a key, `Some((None, value))` for one without. The
      whitespace is taken greedily; the key is everything up to the first
      colon, so it may hold whitespace and line terminators, and the value
      (everything after that colon) may not hold a line terminator. A
      bullet whose text starts with a colon has no key. */
  function MatchKey(line: string): (r: Option<(Option<string>, string)>)
    ensures r.Some? && r.value.0.Some? ==> KeyShape(line, r.value.0.value, r.value.1)
    ensures r.Some? && r.value.0.None? ==> PlainShape(line, r.value.1)
  {
    if |line| == 0 || !IsBullet(line[0]) then None
    else
      var w := LeadingWhitespace(line[1..]);
      if w == 0 then None
      else
        assert line[1..1 + w] == line[1..][..w];
        MatchBulletText(line, 1 + w)
  }

  /** The part of the bullet pattern after the whitespace, on the text
      starting at position `n`. */
  function MatchBulletText(line: string, n: nat): (r: Option<(Option<string>, string)>)
    requires BulletPrefix(line, n)
    ensures r.Some? && r.value.0.Some? ==> KeyShape(line, r.value.0.value, r.value.1)
    ensures r.Some? && r.value.0.None? ==> PlainShape(line, r.value.1)
  {
    var s := line[n..];
    var p := FirstColon(s);
    if 0 < p < |s| then
      var key := s[..p];
      var value := s[p + 1..];
      assert key + [':'] + value == s;
      if NoLineTerminator(value) then Some((Some(key), value)) else None
    else if NoLineTerminator(s) then Some((None, s))
    else None
  }

  /** A bullet, whitespace, a key and a colon is read as that key and the
      rest of the line as its value. */
  lemma KeyLineMatches(c: char, ws: string, key: string, value: string)
    requires IsBullet(c) && ws != [] && AllWhitespace(ws)
    requires key != [] && !IsWhitespace(key[0]) && ':' !in key
    requires NoLineTerminator(value)
    ensures MatchKey([c] + ws + key + ":" + value) == Some((Some(key), value))
  {
    var line := [c] + ws + key + ":" + value;
    var text := key + ":" + value;
    assert line[1..] == ws + text;
    LeadingWhitespaceOfPrefix(ws, text);
    assert line[1 + |ws|..] == text;
    assert MatchKey(line) == MatchBulletText(line, 1 + |ws|);
    KeyTextMatches(line, 1 + |ws|, key, value);
  }

  /** After the bullet and the whitespace: a key, a colon and a value. */
  lemma KeyTextMatches(line: string, n: nat, key: string, value: string)
    requires BulletPrefix(line, n) && line[n..] == key + ":" + value
    requires key != [] && ':' !in key && NoLineTerminator(value)
    ensures MatchBulletText(line, n) == Some((Some(key), value))
  {
    var text := line[n..];
    FirstColonOfPrefix(key, ":" + value);
    assert (":" + value)[0] == ':';
    assert text == key + (":" + value);
    assert FirstColon(text) == |key|;
    assert text[..|key|] == key;
    assert text[|key| + 1..] == value;
  }

  /** A bullet, whitespace and a text without a colon is read as that
      text, with no key. */
  lemma PlainLineMatches(c: char, ws: string, text: string)
    requires IsBullet(c) && ws != [] && AllWhitespace(ws)
    requires text != [] ==> !IsWhitespace(text[0])
    requires ':' !in text && NoLineTerminator(text)
    ensures MatchKey([c] + ws + text) == Some((None, text))
  {
    var line := [c] + ws + text;
    assert line[1..] == ws + text;
    LeadingWhitespaceOfPrefix(ws, text);
    assert line[1 + |ws|..] == text;
    FirstColonOfPrefix(text, "");
  }

  /** A match of the bullet pattern: the bullet and the whitespace end at
      `n`; with `k > 0` the key group is `line[n..n + k]`, which holds no
      colon and is followed by one; with `k == 0` the group is skipped.
      What follows, the `(.*)`, holds no line terminator. */
  predicate BulletMatchesAt(line: string, n: nat, k: nat) {
    && BulletPrefix(line, n) && n + k <= |line|
    && (k == 0 ==> NoLineTerminator(line[n..]))
    && (k > 0 ==>
          && n + k < |line| && line[n + k] == ':'
          && (forall i :: n <= i < n + k ==> line[i] != ':')
          && NoLineTerminator(line[n + k + 1..]))
  }

  /** `MatchKey` finds a match exactly when the bullet pattern has one. */
  lemma MatchKeyIsMatch(line: string)
    ensures MatchKey(line).Some? <==> exists n: nat, k: nat :: BulletMatchesAt(line, n, k)
  {
    if |line| >= 2 && IsBullet(line[0]) {
      var w := LeadingWhitespace(line[1..]);
      if w > 0 {
        var n0 := 1 + w;
        assert line[1..n0] == line[1..][..w];
        var s := line[n0..];
        var p := FirstColon(s);
        if MatchKey(line).Some? {
          if 0 < p < |s| {
            assert s[p + 1..] == line[n0 + p + 1..];
            assert forall i :: n0 <= i < n0 + p ==> line[i] == s[i - n0];
            assert BulletMatchesAt(line, n0, p);
          } else {
            assert BulletMatchesAt(line, n0, 0);
          }
        }
        forall n: nat, k: nat | BulletMatchesAt(line, n, k)
          ensures MatchKey(line).Some?
        {
          BulletMatchGivesSome(line, n, k, w);
        }
      }
    }
  }

  /** Any match of the bullet pattern leaves the greedy reading of
      `MatchBulletText` one too. */
  lemma BulletMatchGivesSome(line: string, n: nat, k: nat, w: nat)
    requires BulletMatchesAt(line, n, k)
    requires w == LeadingWhitespace(line[1..]) && w > 0
    ensures BulletPrefix(line, 1 + w) && MatchBulletText(line, 1 + w).Some?
  {
    var n0 := 1 + w;
    assert line[1..n0] == line[1..][..w];
    assert n <= n0;
    if k == 0 {
      SkippedGroupGivesSome(line, n, n0);
    } else {
      KeyColonIsFirst(line, n, k, n0);
      var s := line[n0..];
      assert s[FirstColon(s) + 1..] == line[n + k + 1..];
    }
  }

  /** A match that skips the key group leaves no line terminator after
      the greedy whitespace, so the greedy reading matches too. */
  lemma SkippedGroupGivesSome(line: string, n: nat, n0: nat)
    requires BulletMatchesAt(line, n, 0) && BulletPrefix(line, n0) && n <= n0
    ensures MatchBulletText(line, n0).Some?
  {
    var s := line[n0..];
    assert forall i :: 0 <= i < |s| ==> s[i] == line[n..][n0 - n + i];
  }

  /** The colon after a key group is the first colon after the greedy
      whitespace. */
  lemma KeyColonIsFirst(line: string, n: nat, k: nat, n0: nat)
    requires BulletMatchesAt(line, n, k) && k > 0
    requires BulletPrefix(line, n0) && n <= n0
    requires n0 < |line| ==> !IsWhitespace(line[n0])
    ensures n0 <= n + k && FirstColon(line[n0..]) == n + k - n0
  {
    var s := line[n0..];
    assert s[n + k - n0] == ':';
  }

  /** The first colon of `key + rest`, for a colon-free `key`, is the
      first colon of `rest`. */
  lemma {:induction false} FirstColonOfPrefix(key: string, rest: string)
    requires ':' !in key
    ensures FirstColon(key + rest) == |key| + FirstColon(rest)
  {
    if key == [] {
      assert key + rest == rest;
    } else {
      assert (key + rest)[1..] == key[1..] + rest;
      FirstColonOfPrefix(key[1..], rest);
    }
  }

  // ------------------------------------------------------------ scanning

  /** The loop's variables: the sections pushed so far, the open section,
      and the attribute being read. The source keeps the attribute in two
      variables, `currentKey` and `currentValue`, which it sets and clears
      together. */
  datatype Scan = Scan(sections: seq<Section>, current: Option<Section>, pending: Option<(string, string)>)

  const Init: Scan := Scan([], None, None)

  /** Stores the attribute being read in the section: when its key and
      its value are non-empty, the trimmed value goes under the key. */
  function Store(section: Section, pending: Option<(string, string)>): Section {
    if pending.Some? && pending.value.0 != "" && pending.value.1 != "" then
      section.(attributes := section.attributes[pending.value.0 := Trim(pending.value.1)])
    else section
  }

  /** `pushSection()`: the sections with the open one stored and added. */
  function Pushed(s: Scan): seq<Section> {
    if s.current.Some? then s.sections + [Store(s.current.value, s.pending)] else s.sections
  }

  /** `line.trim()` is empty. */
  predicate IsBlank(line: string) {
    AllWhitespace(line)
  }

  /** One turn of the loop over lines. */
  function ScanLine(s: Scan, line: string): Scan {
    if IsBlank(line) then
      if s.pending.Some? && s.pending.value.1 != "" then s.(pending := Some((s.pending.value.0, s.pending.value.1 + "\n")))
      else s
    else
      match MatchHeader(line)
      case Some((h, header)) => Scan(Pushed(s), Some(Section(KindOf(h), header, map[])), None)
      case None =>
        if s.current.None? then s
        else
          match MatchKey(line)
          case None => s
          case Some((Some(key), value)) =>
            Scan(s.sections, Some(Store(s.current.value, s.pending)), Some((Lower(key), value)))
          case Some((None, value)) =>
            if s.pending.Some? && s.pending.value.0 != "" then
              s.(pending := Some((s.pending.value.0, s.pending.value.1 + value)))
            else s
  }

  /** The state after the lines, from state `s`. */
  function ScanFrom(s: Scan, lines: seq<string>): Scan {
    if |lines| == 0 then s else ScanLine(ScanFrom(s, lines[..|lines| - 1]), lines[|lines| - 1])
  }

  function SectionsOfLines(lines: seq<string>): seq<Section> {
    Pushed(ScanFrom(Init, lines))
  }

  /** `getSectionsFromText(text)`. */
  function SectionsOf(text: string): seq<Section> {
    SectionsOfLines(Split(text, '\n'))
  }

  method GetSectionsFromText(text: string) returns (sections: seq<Section>)
    ensures sections == SectionsOf(text)
  {
    var lines := Split(text, '\n');
    sections := [];
    var currentSection: Option<Section> := None;
    var currentKey: Option<string> := None;
    var currentValue: Option<string> := None;
    var i := 0;
    while i < |lines|
      invariant i <= |lines|
      invariant currentKey.Some? <==> currentValue.Some?
      invariant ScanFrom(Init, lines[..i]) ==
        Scan(sections, currentSection, if currentKey.Some? then Some((currentKey.value, currentValue.value)) else None)
    {
      var line := lines[i];
      assert lines[..i + 1][..i] == lines[..i];
      i := i + 1;
      if IsBlank(line) {
        if currentValue.Some? && currentValue.value != "" {
          currentValue := Some(currentValue.value + "\n");
        }
        continue;
      }
      var headerMatch := MatchHeader(line);
      if headerMatch.Some? {
        if currentSection.Some? {
          var section := currentSection.value;
          if currentKey.Some? && currentKey.value != "" && currentValue.value != "" {
            section := section.(attributes := section.attributes[currentKey.value := Trim(currentValue.value)]);
          }
          sections := sections + [section];
        }
        currentSection := Some(Section(KindOf(headerMatch.value.0), headerMatch.value.1, map[]));
        currentKey := None;
        currentValue := None;
        continue;
      }
      if currentSection.Some? {
        var keyMatch := MatchKey(line);
        if keyMatch.Some? {
          if keyMatch.value.0.Some? {
            if currentKey.Some? && currentKey.value != "" && currentValue.value != "" {
              var section := currentSection.value;
              currentSection := Some(section.(attributes := section.attributes[currentKey.value := Trim(currentValue.value)]));
            }
            currentKey := Some(Lower(keyMatch.value.0.value));
            currentValue := Some(keyMatch.value.1);
          } else if currentKey.Some? && currentKey.value != "" {
            currentValue := Some(currentValue.value + keyMatch.value.1);
          }
        }
      }
    }
    assert lines[..i] == lines;
    if currentSection.Some? {
      var section := currentSection.value;
      if currentKey.Some? && currentKey.value != "" && currentValue.value != "" {
        section := section.(attributes := section.attributes[currentKey.value := Trim(currentValue.value)]);
      }
      sections := sections + [section];
    }
  }

  // ------------------------------------------------------------ properties

  /** What every section's attributes look like: the keys are non-empty,
      lower case and colon-free, the values trimmed. */
  predicate GoodKey(key: string) {
    key != "" && ':' !in key && Lower(key) == key
  }

  predicate GoodSection(section: Section) {
    forall k :: k in section.attributes ==> GoodKey(k) && Trim(section.attributes[k]) == section.attributes[k]
  }

  predicate GoodScan(s: Scan) {
    && (forall i :: 0 <= i < |s.sections| ==> GoodSection(s.sections[i]))
    && (s.current.Some? ==> GoodSection(s.current.value))
    && (s.pending.Some? ==> GoodKey(s.pending.value.0))
  }

  lemma LowerKeepsColonFree(key: string)
    requires ':' !in key
    ensures ':' !in Lower(key)
  {
    assert forall i :: 0 <= i < |key| ==> key[i] != ':';
  }

  lemma StoreKeepsGood(section: Section, pending: Option<(string, string)>)
    requires GoodSection(section)
    requires pending.Some? ==> GoodKey(pending.value.0)
    ensures GoodSection(Store(section, pending))
  {
    if pending.Some? && pending.value.0 != "" && pending.value.1 != "" {
      var key := pending.value.0;
      var value := Trim(pending.value.1);
      TrimIdempotent(pending.value.1);
      var attributes := section.attributes[key := value];
      forall k | k in attributes
        ensures GoodKey(k) && Trim(attributes[k]) == attributes[k]
      {
        if k != key {
          assert attributes[k] == section.attributes[k];
        }
      }
      assert Store(section, pending).attributes == attributes;
    }
  }

  lemma ScanLineKeepsGood(s: Scan, line: string)
    requires GoodScan(s)
    ensures GoodScan(ScanLine(s, line))
  {
    if s.current.Some? {
      StoreKeepsGood(s.current.value, s.pending);
    }
    if !IsBlank(line) && MatchHeader(line).None? && s.current.Some? {
      var m := MatchKey(line);
      if m.Some? && m.value.0.Some? {
        LowerKeepsColonFree(m.value.0.value);
        LowerIdempotent(m.value.0.value);
      }
    }
  }

  lemma {:induction false} ScanFromKeepsGood(s: Scan, lines: seq<string>)
    requires GoodScan(s)
    ensures GoodScan(ScanFrom(s, lines))
  {
    if |lines| > 0 {
      ScanFromKeepsGood(s, lines[..|lines| - 1]);
      ScanLineKeepsGood(ScanFrom(s, lines[..|lines| - 1]), lines[|lines| - 1]);
    }
  }

  /** Every attribute key is a non-empty, lower-case, colon-free string,
      and every stored value is trimmed. */
  lemma SectionsAreGood(text: string)
    ensures forall i :: 0 <= i < |SectionsOf(text)| ==> GoodSection(SectionsOf(text)[i])
  {
    var s := ScanFrom(Init, Split(text, '\n'));
    ScanFromKeepsGood(Init, Split(text, '\n'));
    if s.current.Some? {
      StoreKeepsGood(s.current.value, s.pending);
    }
  }

  /** The kinds and headers of the header lines, in order. */
  function HeaderLines(lines: seq<string>): seq<(HeaderKind, string)> {
    if |lines| == 0 then []
    else
      var line := lines[|lines| - 1];
      var m := MatchHeader(line);
      HeaderLines(lines[..|lines| - 1]) + if !IsBlank(line) && m.Some? then [(KindOf(m.value.0), m.value.1)] else []
  }

  function Heads(sections: seq<Section>): seq<(HeaderKind, string)> {
    if |sections| == 0 then [] else Heads(sections[..|sections| - 1]) + [(sections[|sections| - 1].headerKind, sections[|sections| - 1].header)]
  }

  lemma HeadsAppend(sections: seq<Section>, section: Section)
    ensures Heads(sections + [section]) == Heads(sections) + [(section.headerKind, section.header)]
  {
    assert (sections + [section])[..|sections|] == sections;
  }

  /** The heads of the sections pushed and open in a scan. */
  function ScanHeads(s: Scan): seq<(HeaderKind, string)> {
    Heads(s.sections) + if s.current.Some? then [(s.current.value.headerKind, s.current.value.header)] else []
  }

  lemma {:induction false} ScanHeadsFollowLines(lines: seq<string>)
    ensures ScanHeads(ScanFrom(Init, lines)) == HeaderLines(lines)
  {
    if |lines| > 0 {
      var prefix := lines[..|lines| - 1];
      var s := ScanFrom(Init, prefix);
      var line := lines[|lines| - 1];
      ScanHeadsFollowLines(prefix);
      ScanLineHeads(s, line);
    }
  }

  lemma ScanLineHeads(s: Scan, line: string)
    ensures var m := MatchHeader(line);
      ScanHeads(ScanLine(s, line)) ==
        ScanHeads(s) + if !IsBlank(line) && m.Some? then [(KindOf(m.value.0), m.value.1)] else []
  {
    if !IsBlank(line) && MatchHeader(line).Some? && s.current.Some? {
      HeadsAppend(s.sections, Store(s.current.value, s.pending));
    }
  }

  /** One section per header line, in order, with that line's kind and
      header: no other line opens or closes a section. */
  lemma SectionsFollowHeaderLines(text: string)
    ensures Heads(SectionsOf(text)) == HeaderLines(Split(text, '\n'))
    ensures |SectionsOf(text)| == |HeaderLines(Split(text, '\n'))|
  {
    var s := ScanFrom(Init, Split(text, '\n'));
    ScanHeadsFollowLines(Split(text, '\n'));
    if s.current.Some? {
      HeadsAppend(s.sections, Store(s.current.value, s.pending));
    }
    HeadsLength(SectionsOf(text));
  }

  lemma {:induction false} HeadsLength(sections: seq<Section>)
    ensures |Heads(sections)| == |sections|
  {
    if |sections| > 0 {
      HeadsLength(sections[..|sections| - 1]);
    }
  }

  /** Lines before the first header line change nothing. */
  lemma {:induction false} PreambleIgnored(lines: seq<string>)
    requires HeaderLines(lines) == []
    ensures ScanFrom(Init, lines) == Init
  {
    if |lines| > 0 {
      assert HeaderLines(lines[..|lines| - 1]) == [];
      PreambleIgnored(lines[..|lines| - 1]);
    }
  }

  lemma {:induction false} ScanFromAppend(s: Scan, a: seq<string>, b: seq<string>)
    ensures ScanFrom(s, a + b) == ScanFrom(ScanFrom(s, a), b)
  {
    if |b| > 0 {
      assert (a + b)[..|a + b| - 1] == a + b[..|b| - 1];
      ScanFromAppend(s, a, b[..|b| - 1]);
    } else {
      assert a + b == a;
    }
  }

  /** A text's sections do not depend on the lines before its first
      header line. */
  lemma SectionsIgnorePreamble(preamble: seq<string>, rest: seq<string>)
    requires HeaderLines(preamble) == []
    ensures SectionsOfLines(preamble + rest) == SectionsOfLines(rest)
  {
    ScanFromAppend(Init, preamble, rest);
    PreambleIgnored(preamble);
  }

  lemma BulletIsNotHeader(line: string)
    requires line != [] && IsBullet(line[0])
    ensures !IsBlank(line) && MatchHeader(line).None?
  {
    assert !IsWhitespace(line[0]);
  }

  /** A blank line and then a bullet without a key continue the value
      being read on a new line. */
  lemma ValueContinuesOnNewLine(s: Scan, blank: string, ws: string, text: string)
    requires s.current.Some? && s.pending.Some? && s.pending.value.0 != "" && s.pending.value.1 != ""
    requires IsBlank(blank)
    requires ws != [] && AllWhitespace(ws)
    requires text != [] ==> !IsWhitespace(text[0])
    requires ':' !in text && NoLineTerminator(text)
    ensures ScanFrom(s, [blank, "-" + ws + text]) ==
      s.(pending := Some((s.pending.value.0, s.pending.value.1 + "\n" + text)))
  {
    var line := "-" + ws + text;
    PlainLineMatches('-', ws, text);
    BulletIsNotHeader(line);
    var (key, value) := s.pending.value;
    var s1 := s.(pending := Some((key, value + "\n")));
    assert [blank, line][..1] == [blank];
    assert [blank][..0] == [];
    assert ScanFrom(s, [blank]) == ScanLine(s, blank) == s1;
    assert ScanLine(s1, line) == s.(pending := Some((key, value + "\n" + text)));
  }

  /** A key whose value is only whitespace is stored, with the empty
      string as its value. */
  lemma BlankValueIsStored(s: Scan, ws: string, key: string, blankValue: string)
    requires s.current.Some?
    requires ws != [] && AllWhitespace(ws)
    requires key != [] && !IsWhitespace(key[0]) && ':' !in key
    requires blankValue != [] && AllWhitespace(blankValue) && NoLineTerminator(blankValue)
    ensures var t := ScanLine(s, "-" + ws + key + ":" + blankValue);
      && Pushed(t) != []
      && Lower(key) in Pushed(t)[|Pushed(t)| - 1].attributes
      && Pushed(t)[|Pushed(t)| - 1].attributes[Lower(key)] == ""
  {
    var line := "-" + ws + key + ":" + blankValue;
    KeyLineMatches('-', ws, key, blankValue);
    BulletIsNotHeader(line);
    assert !IsBlank(line) by { assert line[0] == '-'; }
    var started := Store(s.current.value, s.pending);
    var t := Scan(s.sections, Some(started), Some((Lower(key), blankValue)));
    assert ScanLine(s, line) == t;
    assert Lower(key) != "";
    var stored := Store(started, t.pending);
    assert stored.attributes == started.attributes[Lower(key) := Trim(blankValue)];
    assert Pushed(t) == s.sections + [stored];
    assert Trim(blankValue) == "";
  }
}
