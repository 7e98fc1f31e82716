/**
 The measurement and tags of an InfluxDB line: how they are written, and a reader
 that splits them at the separators no backslash stands before.
 */
module Influx {
  import opened Bytes

  predicate Special(c: char) {
    c == ',' || c == ' ' || c == '='
  }

  function Escape(x: string): string {
    if x == "" then "" else (if Special(x[0]) then ['\\', x[0]] else [x[0]]) + Escape(x[1..])
  }

  /** Takes away the backslash before each special character, and no other. */
  function Unescape(x: string): string {
    if x == "" then ""
    else if x[0] == '\\' && |x| > 1 && Special(x[1]) then [x[1]] + Unescape(x[2..])
    else [x[0]] + Unescape(x[1..])
  }

  method EscapeTag(s: string) returns (result: string)
    ensures result == Escape(s)
    ensures Unescape(result) == s
  {
    result := [];
    for i := 0 to |s|
      invariant result + Escape(s[i..]) == Escape(s)
    {
      EscapeHead(s[i..]);
      assert s[i..][1..] == s[i + 1..];
      ghost var before := result;
      if s[i] == ',' || s[i] == ' ' || s[i] == '=' {
        result := result + ['\\'];
      }
      result := result + [s[i]];
      assert result == before + if Special(s[i]) then ['\\', s[i]] else [s[i]];
      AppendAssoc(before, if Special(s[i]) then ['\\', s[i]] else [s[i]], Escape(s[i + 1..]));
    }
    assert s[|s|..] == "";
    EscapeRoundTrip(s);
  }

  lemma EscapeHead(x: string)
    requires x != ""
    ensures Escape(x) == (if Special(x[0]) then ['\\', x[0]] else [x[0]]) + Escape(x[1..])
  {
  }

  /** Escaping character by character: comma, blank and equals sign get a backslash, and nothing else does. */
  lemma EscapeInCharacters(c: char, x: string)
    ensures Escape("") == ""
    ensures Escape([c] + x) == (if c == ',' then "\\," else if c == ' ' then "\\ " else if c == '=' then "\\="
                                else [c]) + Escape(x)
  {
    EscapeHead([c] + x);
    assert ([c] + x)[1..] == x;
  }

  /** The head of a line character by character: a comma, the escaped key, an equals sign and the
      escaped value for each tag. */
  lemma TagTextInCharacters(key: string, value: string, tags: seq<Tag>)
    ensures TagText([]) == ""
    ensures TagText([Tag(key, value)] + tags) == "," + (Escape(key) + ("=" + (Escape(value) + TagText(tags))))
  {
    assert ([Tag(key, value)] + tags)[1..] == tags;
  }

  /** What an escaped string begins with is never a special character. */
  lemma EscapeStartsPlain(x: string)
    ensures if x == "" then Escape(x) == "" else Escape(x) != "" && !Special(Escape(x)[0])
  {
  }

  /** Every string, with backslashes or not, is got back from its escaped form. */
  lemma {:induction false} EscapeRoundTrip(x: string)
    ensures Unescape(Escape(x)) == x
  {
    if x != "" {
      EscapeRoundTrip(x[1..]);
      EscapeStartsPlain(x[1..]);
      EscapeHead(x);
      var rest := Escape(x[1..]);
      if Special(x[0]) {
        assert Escape(x)[2..] == rest;
      } else {
        assert Escape(x)[1..] == rest;
      }
    }
  }

  // ----- Reading a line

  datatype Token = Token(value: string, next: nat)

  /** From `i` up to the first special character without a backslash before it. */
  function ReadToken(s: string, i: nat): (t: Token)
    ensures t.next >= i
    decreases |s| - i
  {
    if i >= |s| then Token("", i)
    else if s[i] == '\\' && i + 1 < |s| && Special(s[i + 1]) then
      var t := ReadToken(s, i + 2);
      Token([s[i + 1]] + t.value, t.next)
    else if Special(s[i]) then Token("", i)
    else
      var t := ReadToken(s, i + 1);
      Token([s[i]] + t.value, t.next)
  }

  datatype Tag = Tag(key: string, value: string)

  predicate StandsAt(s: string, i: nat, c: char) {
    i < |s| && s[i] == c
  }

  /** The tags from `i` on, up to the blank that ends them; `None` when there is another separator than expected. */
  function ReadTags(s: string, i: nat): Option<seq<Tag>>
    decreases |s| - i
  {
    if StandsAt(s, i, ' ') then Some([])
    else if !StandsAt(s, i, ',') then None
    else
      var key := ReadToken(s, i + 1);
      if !StandsAt(s, key.next, '=') then None
      else
        var value := ReadToken(s, key.next + 1);
        InFront(Tag(key.value, value.value), ReadTags(s, value.next))
  }

  function InFront(tag: Tag, others: Option<seq<Tag>>): Option<seq<Tag>> {
    if others.None? then None else Some([tag] + others.value)
  }

  datatype Series = Series(measurement: string, tags: seq<Tag>)

  function ReadSeries(s: string): Option<Series> {
    var m := ReadToken(s, 0);
    var tags := ReadTags(s, m.next);
    if tags.None? then None else Some(Series(m.value, tags.value))
  }

  // ----- What is written

  function TagText(tags: seq<Tag>): string {
    if tags == [] then ""
    else [','] + (Escape(tags[0].key) + (['='] + (Escape(tags[0].value) + TagText(tags[1..]))))
  }

  predicate Tame(x: string) {
    x == "" || x[|x| - 1] != '\\'
  }

  predicate AllTame(tags: seq<Tag>) {
    forall k :: 0 <= k < |tags| ==> Tame(tags[k].key) && Tame(tags[k].value)
  }

  lemma TameTail(x: string)
    requires x != ""
    ensures x[1..] == "" ==> (Tame(x) <==> x[0] != '\\') && Tame(x[1..])
    ensures Special(x[0]) ==> x[0] != '\\'
    ensures x[1..] != "" ==> (Tame(x) <==> Tame(x[1..]))
  {
  }

  /** `x`, escaped, stands at `i` before a separator. */
  ghost predicate Ends(x: string, s: string, i: nat) {
    Holds(s, i, Escape(x)) && i + |Escape(x)| < |s| && Special(s[i + |Escape(x)|])
  }

  /** What reading it gives: `x`, and only then the place behind it, unless it ends in a backslash. */
  ghost predicate ReadsBack(x: string, s: string, i: nat) {
    && (ReadToken(s, i).value == x <==> Tame(x))
    && (Tame(x) ==> ReadToken(s, i).next == i + |Escape(x)|)
  }

  lemma SpecialFirst(x: string, s: string, i: nat)
    requires x != "" && Special(x[0]) && Ends(x, s, i)
    ensures Ends(x[1..], s, i + 2)
    ensures ReadsBack(x[1..], s, i + 2) ==> ReadsBack(x, s, i)
  {
    hide Escape, Tame, ReadToken, Holds, Special;
    var rest := Escape(x[1..]);
    EscapeHead(x);
    TameTail(x);
    HoldsBoth(s, i, ['\\', x[0]], rest);
    HoldsAt(s, i, ['\\', x[0]], 0);
    HoldsAt(s, i, ['\\', x[0]], 1);
    EscapedCharacter(s, i);
    ConsIs(x[0], ReadToken(s, i + 2).value, x);
  }

  lemma PlainFirst(x: string, s: string, i: nat)
    requires x != "" && !Special(x[0]) && Ends(x, s, i)
    ensures Ends(x[1..], s, i + 1)
    ensures ReadsBack(x[1..], s, i + 1) ==> ReadsBack(x, s, i)
  {
    hide Escape, Tame, ReadToken, Holds, Special;
    var rest := Escape(x[1..]);
    EscapeHead(x);
    EscapeStartsPlain(x[1..]);
    TameTail(x);
    HoldsBoth(s, i, [x[0]], rest);
    HoldsAt(s, i, [x[0]], 0);
    if x[1..] != "" {
      HoldsAt(s, i + 1, rest, 0);
    }
    PlainCharacter(s, i);
    ConsIs(x[0], ReadToken(s, i + 1).value, x);
  }

  lemma NothingReadsBack(s: string, i: nat)
    requires Ends("", s, i)
    ensures ReadsBack("", s, i)
  {
  }

  /** An escaped string before a separator is read back exactly when it does not end in a backslash. */
  lemma {:induction false} TokenReadsBack(x: string, s: string, i: nat)
    requires Ends(x, s, i)
    ensures ReadsBack(x, s, i)
  {
    hide Ends, ReadsBack;
    if x == "" {
      NothingReadsBack(s, i);
    } else if Special(x[0]) {
      SpecialFirst(x, s, i);
      TokenReadsBack(x[1..], s, i + 2);
    } else {
      PlainFirst(x, s, i);
      TokenReadsBack(x[1..], s, i + 1);
    }
  }

  lemma EscapedCharacter(s: string, i: nat)
    requires i + 1 < |s| && s[i] == '\\' && Special(s[i + 1])
    ensures ReadToken(s, i) == Token([s[i + 1]] + ReadToken(s, i + 2).value, ReadToken(s, i + 2).next)
  {
  }

  lemma PlainCharacter(s: string, i: nat)
    requires i < |s| && !Special(s[i])
    ensures !(s[i] == '\\' && i + 1 < |s| && Special(s[i + 1])) ==>
              ReadToken(s, i) == Token([s[i]] + ReadToken(s, i + 1).value, ReadToken(s, i + 1).next)
    ensures s[i] == '\\' && i + 1 < |s| && Special(s[i + 1]) ==>
            ReadToken(s, i).value != [] && ReadToken(s, i).value[0] != s[i]
  {
  }

  /** The text of the tags before the blank is read back as exactly those tags, in
      their order, if and only if no key and no value ends in a backslash. */
  lemma {:induction false} TagsReadBack(tags: seq<Tag>, s: string, i: nat)
    requires Holds(s, i, TagText(tags)) && StandsAt(s, i + |TagText(tags)|, ' ')
    ensures ReadTags(s, i) == Some(tags) <==> AllTame(tags)
    decreases |tags|
  {
    hide ReadToken, Escape, Tame, Holds, InFront;
    if tags != [] {
      var (tag, others) := (tags[0], tags[1..]);
      var j, k := i + 1 + |Escape(tag.key)|, i + 2 + |Escape(tag.key)| + |Escape(tag.value)|;
      OneTagParts(tags, s, i);
      hide TagText, AllTame;
      TokenReadsBack(tag.key, s, i + 1);
      if Tame(tag.key) {
        TokenReadsBack(tag.value, s, j + 1);
        if Tame(tag.value) {
          TagsReadBack(others, s, k);
        }
      }
      var key := ReadToken(s, i + 1);
      var value := ReadToken(s, key.next + 1);
      OneTagMore(Tag(key.value, value.value), ReadTags(s, value.next), tags);
    }
  }

  lemma TagTextStart(tags: seq<Tag>)
    ensures tags == [] <==> TagText(tags) == ""
    ensures tags != [] ==> TagText(tags)[0] == ','
  {
  }

  lemma SeparatorsAreSpecial()
    ensures Special(',') && Special(' ') && Special('=')
  {
  }

  /** Where the parts of the first tag stand. */
  lemma OneTagParts(tags: seq<Tag>, s: string, i: nat)
    requires tags != [] && Holds(s, i, TagText(tags)) && StandsAt(s, i + |TagText(tags)|, ' ')
    ensures var j, k := i + 1 + |Escape(tags[0].key)|, i + 2 + |Escape(tags[0].key)| + |Escape(tags[0].value)|;
            && StandsAt(s, i, ',') && Holds(s, i + 1, Escape(tags[0].key)) && StandsAt(s, j, '=')
            && Holds(s, j + 1, Escape(tags[0].value)) && Holds(s, k, TagText(tags[1..]))
            && StandsAt(s, k + |TagText(tags[1..])|, ' ')
            && k < |s| && Special(s[k])
  {
    hide Escape, Holds, Special, StandsAt, TagText;
    var key, value, rest := Escape(tags[0].key), Escape(tags[0].value), TagText(tags[1..]);
    FirstTagText(tags);
    TagTextStart(tags[1..]);
    TwoMarkedParts(s, i, key, value, rest);
  }

  lemma FirstTagText(tags: seq<Tag>)
    requires tags != []
    ensures TagText(tags)
            == [','] + (Escape(tags[0].key) + (['='] + (Escape(tags[0].value) + TagText(tags[1..]))))
  {
  }

  lemma TwoMarkedParts(s: string, i: nat, key: string, value: string, rest: string)
    requires Holds(s, i, [','] + (key + (['='] + (value + rest)))) && (rest != "" ==> rest[0] == ',')
    requires StandsAt(s, i + |[','] + (key + (['='] + (value + rest)))|, ' ')
    ensures var j, k := i + 1 + |key|, i + 2 + |key| + |value|;
            && StandsAt(s, i, ',') && Holds(s, i + 1, key) && StandsAt(s, j, '=')
            && Holds(s, j + 1, value) && Holds(s, k, rest) && StandsAt(s, k + |rest|, ' ')
            && k < |s| && Special(s[k])
  {
    hide Holds, Special;
    SeparatorsAreSpecial();
    HoldsTwoMarked(s, i, ',', key, '=', value, rest);
    if rest != "" {
      HoldsAt(s, i + 2 + |key| + |value|, rest, 0);
    }
  }

  /** Reading the first tag and the others is reading them all. */
  lemma OneTagMore(tag: Tag, r: Option<seq<Tag>>, tags: seq<Tag>)
    requires tags != []
    ensures InFront(tag, r) == Some(tags) <==> tag == tags[0] && r == Some(tags[1..])
    ensures AllTame(tags) <==> Tame(tags[0].key) && Tame(tags[0].value) && AllTame(tags[1..])
  {
    if r.Some? {
      ConsIs(tag, r.value, tags);
    }
    assert forall k :: 0 < k < |tags| ==> tags[k] == tags[1..][k - 1];
  }

  predicate Plain(x: string) {
    forall k :: 0 <= k < |x| ==> !Special(x[k])
  }

  lemma {:induction false} PlainIsNotEscaped(x: string)
    requires Plain(x)
    ensures Escape(x) == x
  {
    if x != "" {
      PlainIsNotEscaped(x[1..]);
    }
  }

  /** A line with a plain measurement splits back into that measurement and those tags
      if and only if neither the measurement nor any key or value ends in a backslash. */
  lemma SeriesReadsBack(measurement: string, tags: seq<Tag>, rest: string)
    requires Plain(measurement)
    ensures var s := measurement + (TagText(tags) + ([' '] + rest));
            ReadSeries(s) == Some(Series(measurement, tags)) <==> Tame(measurement) && AllTame(tags)
  {
    var s := measurement + (TagText(tags) + ([' '] + rest));
    hide *;
    SeriesParts(measurement, tags, rest);
    TokenReadsBack(measurement, s, 0);
    TagsReadBack(tags, s, |measurement|);
    SeriesFromParts(measurement, tags, s);
  }

  /** Where the measurement and the tags stand. */
  lemma SeriesParts(measurement: string, tags: seq<Tag>, rest: string)
    requires Plain(measurement)
    ensures var s := measurement + (TagText(tags) + ([' '] + rest));
            && Escape(measurement) == measurement && Ends(measurement, s, 0)
            && Holds(s, |measurement|, TagText(tags)) && StandsAt(s, |measurement| + |TagText(tags)|, ' ')
  {
    hide Holds, Escape, Plain, TagText;
    PlainIsNotEscaped(measurement);
    TagTextStart(tags);
    ThreeParts(measurement, TagText(tags), rest);
  }

  lemma ThreeParts(x: string, y: string, z: string)
    ensures var s := x + (y + ([' '] + z));
            && Holds(s, 0, x) && Holds(s, |x|, y) && StandsAt(s, |x| + |y|, ' ')
            && (y != "" ==> s[|x|] == y[0])
  {
    var s := x + (y + ([' '] + z));
    HoldsWhole(s);
    hide Holds;
    HoldsBoth(s, 0, x, y + ([' '] + z));
    HoldsBoth(s, |x|, y, [' '] + z);
    HoldsAt(s, |x| + |y|, [' '] + z, 0);
  }

  lemma SeriesFromParts(measurement: string, tags: seq<Tag>, s: string)
    requires Escape(measurement) == measurement && ReadsBack(measurement, s, 0)
    requires ReadTags(s, |measurement|) == Some(tags) <==> AllTame(tags)
    ensures ReadSeries(s) == Some(Series(measurement, tags)) <==> Tame(measurement) && AllTame(tags)
  {
    hide Escape, Tame, AllTame, ReadToken, ReadTags;
  }

  /** Writes the measurement and the tags as a point begins; the map of tags is given in the order it is walked. */
  method WriteSeries(measurement: string, tags: seq<Tag>) returns (buffer: string)
    ensures buffer == measurement + TagText(tags)
  {
    buffer := measurement;
    AppendNothing(buffer);
    for n := 0 to |tags|
      invariant buffer + TagText(tags[n..]) == measurement + TagText(tags)
    {
      ghost var before := buffer;
      buffer := buffer + [','];
      var key := EscapeTag(tags[n].key);
      buffer := buffer + key;
      buffer := buffer + ['='];
      var value := EscapeTag(tags[n].value);
      buffer := buffer + value;
      assert tags[n..][1..] == tags[n + 1..];
      OneTagWritten(before, key, value, TagText(tags[n + 1..]));
    }
    assert tags[|tags|..] == [];
  }

  lemma OneTagWritten(before: string, key: string, value: string, rest: string)
    ensures before + [','] + key + ['='] + value + rest == before + ([','] + (key + (['='] + (value + rest))))
  {
    AppendAssoc(before + [','] + key + ['='], value, rest);
    AppendAssoc(before + [','] + key, ['='], value + rest);
    AppendAssoc(before + [','], key, ['='] + (value + rest));
    AppendAssoc(before, [','], key + (['='] + (value + rest)));
  }
}
