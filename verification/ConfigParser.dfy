/** ConfigParser (config_parser.cpp): the loop over the file, which never looks past its terminating NUL and computes
    Parse; and Parse against a renderer of all files there are, those that fail and why included, whatever blanks and
    comments stand between sections, keys and values. */
module ConfigParser {
  import opened Basics

  type Config = map<string, map<string, string>>

  // ---- characters ---------------------------------------------------------------------------------------------

  const NUL: char := '\0'

  predicate IsSpace(c: char) { c == ' ' || '\t' <= c <= '\r' }

  predicate IsBlank(c: char) { c == ' ' || c == '\t' }

  predicate IsSpaceOnly(c: char) { c == ' ' }

  /** isalpha, isdigit or '_'. */
  predicate IsName(c: char) { 'a' <= c <= 'z' || 'A' <= c <= 'Z' || '0' <= c <= '9' || c == '_' }

  predicate IsComment(c: char) { c != '\n' && c != NUL }

  predicate IsValue(c: char) { !IsSpace(c) && c != NUL }

  /** The terminating NUL stops every scan. */
  lemma NulIsNothing()
    ensures !IsSpace(NUL) && !IsBlank(NUL) && !IsSpaceOnly(NUL) && !IsName(NUL) && !IsComment(NUL) && !IsValue(NUL)
    ensures NUL != '#' && NUL != '[' && NUL != ']' && NUL != '='
  {
  }

  /** The classes by the codes of their characters. */
  lemma Classes(c: char)
    ensures var n := c as int;
            && (IsSpace(c) <==> 9 <= n < 14 || n == 32)
            && (IsBlank(c) <==> n == 9 || n == 32)
            && (IsSpaceOnly(c) <==> n == 32)
            && (IsName(c) <==> 48 <= n < 58 || 65 <= n < 91 || n == 95 || 97 <= n < 123)
            && (IsComment(c) <==> n != 0 && n != 10)
            && (IsValue(c) <==> n > 0 && n != 32 && !(9 <= n < 14))
  {
  }

  ghost predicate All(p: char -> bool, s: string) { forall i :: 0 <= i < |s| ==> p(s[i]) }

  /** How many characters at the start of s satisfy p. */
  function Span(p: char -> bool, s: string): (n: nat)
    ensures n <= |s| && All(p, s[..n]) && (n < |s| ==> !p(s[n]))
  {
    if s == [] || !p(s[0]) then 0 else
      var n := 1 + Span(p, s[1..]);
      assert All(p, s[..n]) by {
        assert forall i :: 1 <= i < n ==> s[..n][i] == s[1..][..n - 1][i - 1];
      }
      n
  }

  lemma {:induction false} SpanOf(p: char -> bool, a: string, b: string)
    requires All(p, a) && (b == [] || !p(b[0]))
    ensures Span(p, a + b) == |a|
  {
    if a == [] {
      assert a + b == b;
    } else {
      assert (a + b)[1..] == a[1..] + b;
      SpanOf(p, a[1..], b);
    }
  }

  /** The character at the head of what is left, NUL at the end. */
  function Head(s: string): char { if s == [] then NUL else s[0] }

  // ---- what the loop does ---------------------------------------------------------------------------------------

  datatype Error = BadSectionName | DuplicatedSection | NoBracket | NoSection | NoEquals | NoValue | Unrecognized

  /** The outcome; an error is at the place where `left` characters were left. */
  datatype Outcome = Done(config: Config) | Failed(error: Error, left: nat, config: Config)

  /** One turn of the loop: on with the rest, or out of it. */
  datatype Turn = Next(rest: string, section: string, config: Config) | Stop(outcome: Outcome)

  /** A turn takes something off, and errors are where there still was something to read, or at the end. */
  ghost predicate Within(turn: Turn, s: string) {
    match turn
    case Next(rest, _, _) => |rest| < |s|
    case Stop(outcome) => outcome.Failed? ==> outcome.left <= |s|
  }

  /** A section header, from behind its '['. */
  function SectionTurn(s: string, config: Config): (turn: Turn)
    ensures Within(turn, s)
  {
    var u := s[Span(IsSpaceOnly, s)..];
    var n := Span(IsName, u);
    if n == 0 then Stop(Failed(BadSectionName, |u|, config))
    else if u[..n] in config then Stop(Failed(DuplicatedSection, |u|, config))
    else
      var added := config[u[..n] := map[]];
      var v := u[n..][Span(IsBlank, u[n..])..];
      if Head(v) != ']' then Stop(Failed(NoBracket, |v|, added)) else Next(v[1..], u[..n], added)
  }

  /** config_kv_[section][key] = value. */
  function Put(config: Config, section: string, key: string, value: string): Config {
    config[section := (if section in config then config[section] else map[])[key := value]]
  }

  /** The value of a key, from the '=' on. */
  function ValueTurn(v: string, section: string, key: string, config: Config): (turn: Turn)
    requires v != ""
    ensures Within(turn, v)
  {
    var x := v[1..][Span(IsBlank, v[1..])..];
    var m := Span(IsValue, x);
    if m == 0 then Stop(Failed(NoValue, |v|, config)) else Next(x[m..], section, Put(config, section, key, x[..m]))
  }

  /** A key and its value, from the key on. */
  function SettingTurn(t: string, section: string, config: Config): (turn: Turn)
    ensures Within(turn, t)
  {
    var n := Span(IsName, t);
    var v := t[n..][Span(IsBlank, t[n..])..];
    if Head(v) != '=' then Stop(Failed(NoEquals, |t|, config)) else ValueTurn(v, section, t[..n], config)
  }

  function OneTurn(s: string, section: string, config: Config): (turn: Turn)
    ensures Within(turn, s)
  {
    var t := s[Span(IsSpace, s)..];
    if Head(t) == NUL then Stop(Done(config))
    else if Head(t) == '#' then Next(t[Span(IsComment, t)..], section, config)
    else if Head(t) == '[' then SectionTurn(t[1..], config)
    else if IsName(Head(t)) then
      if section == "" then Stop(Failed(NoSection, |t|, config)) else SettingTurn(t, section, config)
    else Stop(Failed(Unrecognized, |t|, config))
  }

  function Parse(s: string, section: string, config: Config): (outcome: Outcome)
    ensures outcome.Failed? ==> outcome.left <= |s|
    decreases |s|
  {
    match OneTurn(s, section, config)
    case Stop(outcome) => outcome
    case Next(rest, section', config') => Parse(rest, section', config')
  }

  /** The line on which a place is, counted as the messages count: a newline at the place itself is on the next line. */
  function LineOf(s: string, place: nat): nat {
    1 + Newlines(if place < |s| then s[..place + 1] else s)
  }

  function Newlines(s: string): nat {
    if s == [] then 0 else Newlines(s[..|s| - 1]) + if s[|s| - 1] == '\n' then 1 else 0
  }

  lemma {:induction false} NewlinesCounted(s: string)
    ensures Newlines(s) == multiset(s)['\n']
  {
    if s != [] {
      var n := |s| - 1;
      NewlinesCounted(s[..n]);
      assert s == s[..n] + [s[n]];
    }
  }

  /** That is one line too far exactly at a newline. */
  lemma LineExact(s: string, place: nat)
    requires place <= |s|
    ensures LineOf(s, place) == 1 + Newlines(s[..place]) <==> !(place < |s| && s[place] == '\n')
  {
    if place < |s| {
      assert s[..place + 1][..place] == s[..place];
    } else {
      assert s[..place] == s;
    }
  }

  ghost predicate Suffix(t: string, s: string) { |t| <= |s| && t == s[|s| - |t|..] }

  /** Where so much is left, there is a newline. */
  ghost predicate AtNewline(s: string, left: nat) { 0 < left <= |s| && s[|s| - left] == '\n' }

  lemma SameNewline(t: string, s: string, left: nat)
    requires Suffix(t, s) && left <= |t|
    ensures AtNewline(t, left) <==> AtNewline(s, left)
  {
  }

  /** The errors that come of a section header that is broken off. */
  predicate BrokenOff(error: Error) { error == BadSectionName || error == NoBracket }

  /** A turn goes on with what is left; and if it stops, then not at a newline, unless in a section header. */
  ghost predicate Placed(turn: Turn, s: string) {
    match turn
    case Next(rest, _, _) => Suffix(rest, s)
    case Stop(Done(_)) => true
    case Stop(Failed(error, left, _)) => AtNewline(s, left) ==> BrokenOff(error)
  }

  lemma SectionPlaced(s: string, config: Config)
    ensures Placed(SectionTurn(s, config), s)
  {
  }

  lemma PlacedBefore(turn: Turn, t: string, s: string)
    requires Placed(turn, t) && Suffix(t, s) && Within(turn, t)
    ensures Placed(turn, s)
  {
  }

  lemma ValuePlaced(v: string, section: string, key: string, config: Config)
    requires Head(v) == '='
    ensures v != "" && Placed(ValueTurn(v, section, key, config), v)
  {
  }

  lemma SettingPlaced(t: string, section: string, config: Config)
    requires IsName(Head(t))
    ensures Placed(SettingTurn(t, section, config), t)
  {
    hide ValueTurn;
    var n := Span(IsName, t);
    var v := t[n..][Span(IsBlank, t[n..])..];
    if Head(v) == '=' {
      ValuePlaced(v, section, t[..n], config);
      PlacedBefore(ValueTurn(v, section, t[..n], config), v, t);
    }
  }

  lemma TurnPlaced(s: string, section: string, config: Config)
    ensures Placed(OneTurn(s, section, config), s)
  {
    hide SectionTurn, SettingTurn;
    var t := s[Span(IsSpace, s)..];
    if Head(t) == '[' {
      SectionPlaced(t[1..], config);
      PlacedBefore(SectionTurn(t[1..], config), t[1..], s);
    } else if IsName(Head(t)) && section != "" {
      SettingPlaced(t, section, config);
      PlacedBefore(SettingTurn(t, section, config), t, s);
    }
  }

  /** The line a failing parse names is the one on which it failed, unless it failed at the newline that broke off a
      section header. */
  lemma {:induction false} LineIsRight(s: string, section: string, config: Config)
    requires Parse(s, section, config).Failed?
    ensures var failed := Parse(s, section, config);
            var place := |s| - failed.left;
            LineOf(s, place) == 1 + Newlines(s[..place])
            <==> !(BrokenOff(failed.error) && place < |s| && s[place] == '\n')
  {
    var failed := Parse(s, section, config);
    LineExact(s, |s| - failed.left);
    NewlineOnlyInHeader(s, section, config);
  }

  lemma {:induction false} NewlineOnlyInHeader(s: string, section: string, config: Config)
    requires Parse(s, section, config).Failed?
    ensures var failed := Parse(s, section, config);
            AtNewline(s, failed.left) ==> BrokenOff(failed.error)
    decreases |s|
  {
    hide AtNewline, OneTurn, Suffix;
    TurnPlaced(s, section, config);
    match OneTurn(s, section, config)
    case Stop(_) =>
    case Next(rest, section', config') =>
      NewlineOnlyInHeader(rest, section', config');
      SameNewline(rest, s, Parse(rest, section', config').left);
  }

  /** A bracket at the end of a line is one. */
  lemma LineTooFar()
    ensures Parse("[\n", "", map[]) == Failed(BadSectionName, 1, map[]) && LineOf("[\n", 1) == 2
    ensures 1 + Newlines("[\n"[..1]) == 1
  {
    assert "[\n"[1..] == "\n" && "[\n"[..1] == "[" && "["[..0] == "";
    assert "[\n"[..2] == "[\n" && Newlines("[\n") == Newlines("[\n"[..1]) + 1;
  }

  // ---- the parser -----------------------------------------------------------------------------------------------

  class ConfigParser {
    var contents: string
    var config_kv: Config

    constructor (contents: string)
      ensures this.contents == contents && config_kv == map[]
    {
      this.contents, config_kv := contents, map[];
    }

    /** contents_[i], whose last element is the terminating NUL. */
    function At(i: nat): char
      requires i <= |contents|
      reads this`contents
    {
      if i == |contents| then NUL else contents[i]
    }

    /** What is left of the contents at a position. */
    ghost function Rest(pos: nat): string
      requires pos <= |contents|
      reads this`contents
    {
      contents[pos..]
    }

    /** The loops that advance a position over one kind of character. */
    method Scan(p: char -> bool, pos: nat) returns (end: nat)
      requires pos <= |contents| && !p(NUL)
      ensures pos <= end <= |contents| && end == pos + Span(p, Rest(pos))
      ensures Rest(end) == Rest(pos)[Span(p, Rest(pos))..] && contents[pos..end] == Rest(pos)[..Span(p, Rest(pos))]
    {
      end := pos;
      while p(At(end))
        invariant pos <= end <= |contents|
        invariant end + Span(p, Rest(end)) == pos + Span(p, Rest(pos))
        decreases |contents| - end
      {
        assert Rest(end)[1..] == Rest(end + 1);
        end := end + 1;
      }
    }

    lemma Here(pos: nat)
      requires pos <= |contents|
      ensures Head(Rest(pos)) == At(pos) && |Rest(pos)| == |contents| - pos
      ensures pos < |contents| ==> Rest(pos + 1) == Rest(pos)[1..]
      ensures At(pos) != NUL ==> pos < |contents|
    {
    }

    method CountLine(end_pos: nat) returns (line: nat)
      requires end_pos <= |contents|
      ensures line == LineOf(contents, end_pos)
    {
      line := 1;
      var pos := 0;
      while pos <= end_pos
        invariant pos <= end_pos + 1
        invariant line == 1 + Newlines(if pos < |contents| then contents[..pos] else contents)
      {
        assert pos < |contents| ==> contents[..pos + 1][..pos] == contents[..pos];
        assert contents[..|contents|] == contents;
        if At(pos) == '\n' {
          line := line + 1;
        }
        pos := pos + 1;
      }
    }

    /** The part of the loop behind a '['. */
    method ParseSection(start: nat) returns (pos: nat, section: string, error: Option<Error>)
      requires start <= |contents|
      modifies this`config_kv
      ensures pos <= |contents|
      ensures SectionTurn(Rest(start), old(config_kv)) ==
              match error
              case None => Next(Rest(pos), section, config_kv)
              case Some(e) => Stop(Failed(e, |contents| - pos, config_kv))
    {
      hide At, Head, IsComment, IsSpace, IsValue, Rest, Span, Within;
      NulIsNothing();
      section, error := "", None;
      pos := Scan(IsSpaceOnly, start);
      Here(pos);
      var end := Scan(IsName, pos);
      if end == pos {
        return pos, section, Some(BadSectionName);
      }
      section := contents[pos..end];
      if section in config_kv {
        return pos, section, Some(DuplicatedSection);
      }
      config_kv := config_kv[section := map[]];
      pos := Scan(IsBlank, end);
      Here(pos);
      if At(pos) != ']' {
        return pos, section, Some(NoBracket);
      }
      pos := pos + 1;
    }

    /** The part of the loop for a key and its value. */
    method ParseSetting(start: nat, section: string) returns (pos: nat, error: Option<Error>)
      requires start <= |contents|
      modifies this`config_kv
      ensures pos <= |contents|
      ensures SettingTurn(Rest(start), section, old(config_kv)) ==
              match error
              case None => Next(Rest(pos), section, config_kv)
              case Some(e) => Stop(Failed(e, |contents| - pos, config_kv))
    {
      hide At, Head, IsBlank, IsComment, IsName, IsSpace, IsSpaceOnly, IsValue, Rest, Span, ValueTurn, Within;
      NulIsNothing();
      Here(start);
      var end := Scan(IsName, start);
      var key := contents[start..end];
      pos := Scan(IsBlank, end);
      Here(pos);
      if At(pos) != '=' {
        return start, Some(NoEquals);
      }
      pos, error := ParseValue(pos, section, key);
    }

    /** The end of it, behind the '='. */
    method ParseValue(equals: nat, section: string, key: string) returns (pos: nat, error: Option<Error>)
      requires equals < |contents|
      modifies this`config_kv
      ensures pos <= |contents|
      ensures ValueTurn(Rest(equals), section, key, old(config_kv)) ==
              match error
              case None => Next(Rest(pos), section, config_kv)
              case Some(e) => Stop(Failed(e, |contents| - pos, config_kv))
    {
      hide At, Head, IsBlank, IsComment, IsName, IsSpace, IsSpaceOnly, IsValue, Put, Span, Within;
      NulIsNothing();
      Here(equals);
      var value := Scan(IsBlank, equals + 1);
      pos := Scan(IsValue, value);
      if pos == value {
        return equals, Some(NoValue);
      }
      error := None;
      config_kv := Put(config_kv, section, key, contents[value..pos]);
    }

    /** One turn of the loop. */
    method ParseTurn(start: nat, section0: string)
      returns (pos: nat, section: string, done: bool, error: Option<Error>)
      requires start <= |contents|
      modifies this`config_kv
      ensures pos <= |contents| && (done ==> error == None)
      ensures OneTurn(Rest(start), section0, old(config_kv)) ==
              if error.Some? then Stop(Failed(error.value, |contents| - pos, config_kv))
              else if done then Stop(Done(config_kv))
              else Next(Rest(pos), section, config_kv)
    {
      hide At, Head, IsBlank, IsComment, IsName, IsSpace, IsSpaceOnly, IsValue, Rest, SectionTurn, SettingTurn, Span,
           Within;
      NulIsNothing();
      section, done, error := section0, false, None;
      pos := Scan(IsSpace, start);
      Here(pos);
      if At(pos) == NUL {
        done := true;
      } else if At(pos) == '#' {
        pos := Scan(IsComment, pos);
      } else if At(pos) == '[' {
        pos, section, error := ParseSection(pos + 1);
      } else if IsName(At(pos)) {
        if section == "" {
          error := Some(NoSection);
        } else {
          pos, error := ParseSetting(pos, section);
        }
      } else {
        error := Some(Unrecognized);
      }
    }

    /** Parses the contents; on an error, says which and on what line. */
    method ParseConfig() returns (error: Option<Error>, line: nat)
      modifies this`config_kv
      ensures config_kv == Parse(contents, "", old(config_kv)).config
      ensures match Parse(contents, "", old(config_kv))
              case Done(_) => error == None
              case Failed(e, left, _) =>
                var place := |contents| - left;
                && error == Some(e) && line == LineOf(contents, place)
                && (line == 1 + Newlines(contents[..place])
                    <==> !(BrokenOff(e) && place < |contents| && contents[place] == '\n'))
      ensures old(config_kv) == map[] ==> (error == None <==> Faultless(contents))
      ensures forall e, left: nat :: old(config_kv) == map[] && Faulty(contents, e, left) ==>
                left <= |contents| && error == Some(e) && line == LineOf(contents, |contents| - left)
    {
      hide At, Faultless, Faulty, Head, LineOf, OneTurn, Rest;
      ParsesExactly(contents);
      line, error := 0, None;
      var pos, section, done := 0, "", false;
      Start();
      while true
        invariant pos <= |contents| && error == None
        invariant Parse(Rest(pos), section, config_kv) == Parse(contents, "", old(config_kv))
        decreases |contents| - pos
      {
        Here(pos);
        pos, section, done, error := ParseTurn(pos, section);
        Here(pos);
        if done {
          return;
        }
        if error.Some? {
          line := CountLine(pos);
          LineIsRight(contents, "", old(config_kv));
          return;
        }
      }
    }

    lemma Start()
      ensures Rest(0) == contents
    {
    }

    method GetItem(section: string, key: string) returns (value: Option<string>)
      ensures value == Lookup(config_kv, section, key)
    {
      if section in config_kv {
        var kv := config_kv[section];
        if key in kv {
          return Some(kv[key]);
        }
      }
      return None;
    }

    /** Asked for a section and key after it has parsed any contents, the parser gives the last value the file sets
        before its end or its first fault, and says that there is none if it sets none. */
    method ParseAndGet(section: string, key: string) returns (value: Option<string>, ghost f: File)
      requires config_kv == map[]
      modifies this`config_kv
      ensures GoodFile(f) && contents == RenderFile(f)
      ensures config_kv == Says(f, "", map[]).config && GivesLast(f.entries, section, key, value)
    {
      hide GivesLast, GoodFrom, Parse, RenderFile, Says;
      f := EveryStringIsAFile(contents, "", map[]);
      LookupGivesLast(f, section, key);
      FileParses(f, "", map[]);
      var _, _ := ParseConfig();
      value := GetItem(section, key);
    }
  }

  function Lookup(config: Config, section: string, key: string): Option<string> {
    if section in config && key in config[section] then Some(config[section][key]) else None
  }

  // ---- a renderer, and that the parser inverts it -----------------------------------------------------------------

  /** What may stand between sections and settings. */
  datatype Filler = White(c: char) | Comment(text: string)

  datatype Item = Section(lead: string, name: string, trail: string)
                | Setting(key: string, left: string, right: string, value: string)

  datatype Entry = Entry(before: seq<Filler>, item: Item)

  function RenderFiller(fs: seq<Filler>, rest: string): string {
    if fs == [] then rest else
      match fs[0]
      case White(c) => [c] + RenderFiller(fs[1..], rest)
      case Comment(text) => ['#'] + (text + (['\n'] + RenderFiller(fs[1..], rest)))
  }

  function RenderItem(item: Item, rest: string): string {
    match item
    case Section(lead, name, trail) => ['['] + (lead + (name + (trail + ([']'] + rest))))
    case Setting(key, left, right, value) => key + (left + (['='] + (right + (value + rest))))
  }

  function Render(entries: seq<Entry>, rest: string): string {
    if entries == [] then rest else
      RenderFiller(entries[0].before, RenderItem(entries[0].item, Render(entries[1..], rest)))
  }

  ghost predicate GoodFiller(fs: seq<Filler>) {
    forall i :: 0 <= i < |fs| ==>
      match fs[i]
      case White(c) => IsSpace(c)
      case Comment(text) => All(IsComment, text)
  }

  ghost predicate GoodItem(item: Item) {
    match item
    case Section(lead, name, trail) =>
      All(IsSpaceOnly, lead) && name != "" && All(IsName, name) && All(IsBlank, trail)
    case Setting(key, left, right, value) =>
      && key != "" && All(IsName, key) && All(IsBlank, left)
      && All(IsBlank, right) && value != "" && All(IsValue, value)
  }

  /** Sections are new, settings are in some section, and after a value there is a space or the end. */
  ghost predicate Good(entries: seq<Entry>, rest: string, section: string, config: Config)
    decreases |entries|
  {
    if entries == [] then true else
      var e, more := entries[0], Render(entries[1..], rest);
      && GoodFiller(e.before) && GoodItem(e.item)
      && (e.item.Section? ==> e.item.name !in config)
      && (e.item.Setting? ==> section != "" && !IsValue(Head(more)))
      && Good(entries[1..], rest, SectionAfter(e.item, section), ConfigAfter(e.item, section, config))
  }

  function SectionAfter(item: Item, section: string): string {
    if item.Section? then item.name else section
  }

  function ConfigAfter(item: Item, section: string, config: Config): Config {
    match item
    case Section(_, name, _) => config[name := map[]]
    case Setting(key, _, _, value) => Put(config, section, key, value)
  }

  /** The section one is in, and the settings, after some entries. */
  function Meaning(entries: seq<Entry>, section: string, config: Config): (string, Config) {
    if entries == [] then (section, config) else
      Meaning(entries[1..], SectionAfter(entries[0].item, section), ConfigAfter(entries[0].item, section, config))
  }

  lemma Taken(p: char -> bool, a: string, b: string)
    requires All(p, a) && (b == [] || !p(b[0]))
    ensures Span(p, a + b) == |a| && (a + b)[Span(p, a + b)..] == b && (a + b)[..Span(p, a + b)] == a
  {
    SpanOf(p, a, b);
  }

  lemma SpaceSkipped(c: char, s: string, section: string, config: Config)
    requires IsSpace(c)
    ensures Parse([c] + s, section, config) == Parse(s, section, config)
  {
    hide All, Head, IsComment, IsName, IsSpace, SectionTurn, SettingTurn, Within;
    assert ([c] + s)[1..] == s;
    var n := Span(IsSpace, s);
    assert ([c] + s)[n + 1..] == s[n..];
  }

  lemma CommentTurn(text: string, rest: string, section: string, config: Config)
    requires All(IsComment, text) && !IsComment(Head(rest))
    ensures OneTurn(['#'] + text + rest, section, config) == Next(rest, section, config)
  {
    hide SectionTurn, SettingTurn, Within;
    var t := ['#'] + text + rest;
    Taken(IsComment, ['#'] + text, rest);
    assert Span(IsSpace, t) == 0 && t[0..] == t;
  }

  lemma CommentSkipped(text: string, s: string, section: string, config: Config)
    requires All(IsComment, text)
    ensures Parse(['#'] + (text + (['\n'] + s)), section, config) == Parse(s, section, config)
  {
    hide OneTurn;
    assert ['#'] + (text + (['\n'] + s)) == ['#'] + text + (['\n'] + s);
    CommentTurn(text, ['\n'] + s, section, config);
    SpaceSkipped('\n', s, section, config);
  }

  lemma {:induction false} FillerSkipped(fs: seq<Filler>, rest: string, section: string, config: Config)
    requires GoodFiller(fs)
    ensures Parse(RenderFiller(fs, rest), section, config) == Parse(rest, section, config)
  {
    hide Parse;
    if fs != [] {
      var s := RenderFiller(fs[1..], rest);
      match fs[0] {
        case White(c) => SpaceSkipped(c, s, section, config);
        case Comment(text) => CommentSkipped(text, s, section, config);
      }
      FillerSkipped(fs[1..], rest, section, config);
    }
  }

  /** Each part of an entry ends where it should. */
  lemma SectionBoundaries(name: string, trail: string, rest: string)
    requires name != "" && All(IsName, name) && All(IsBlank, trail)
    ensures !IsBlank(']') && !IsName((trail + ([']'] + rest))[0]) && !IsSpaceOnly((name + (trail + ([']'] + rest)))[0])
    ensures ([']'] + rest)[0] == ']' && ([']'] + rest)[1..] == rest
  {
  }

  lemma SectionTurnIs(lead: string, name: string, trail: string, rest: string, config: Config)
    requires All(IsSpaceOnly, lead) && name != "" && All(IsName, name) && All(IsBlank, trail) && name !in config
    ensures SectionTurn(lead + (name + (trail + ([']'] + rest))), config) == Next(rest, name, config[name := map[]])
  {
    hide All, IsBlank, IsName, IsSpaceOnly, Span, Within;
    var s0 := [']'] + rest;
    var s1 := trail + s0;
    SectionBoundaries(name, trail, rest);
    Taken(IsBlank, trail, s0);
    Taken(IsName, name, s1);
    Taken(IsSpaceOnly, lead, name + s1);
  }

  lemma SectionParsed(item: Item, rest: string, section: string, config: Config)
    requires item.Section? && GoodItem(item) && item.name !in config
    ensures Parse(RenderItem(item, rest), section, config) == Parse(rest, item.name, ConfigAfter(item, section, config))
  {
    var s := RenderItem(item, rest);
    assert Span(IsSpace, s) == 0 && s[0..] == s;
    SectionTurnIs(item.lead, item.name, item.trail, rest, config);
    assert s[1..] == item.lead + (item.name + (item.trail + ([']'] + rest)));
  }

  lemma SettingBoundaries(key: string, left: string, value: string, rest: string, s: string)
    requires All(IsBlank, left) && value != "" && All(IsValue, value)
    ensures !IsBlank((value + rest)[0]) && !IsBlank('=') && !IsName((left + (['='] + s))[0])
    ensures (['='] + s)[0] == '=' && (['='] + s)[1..] == s
  {
  }

  lemma SettingTurnIs(item: Item, rest: string, section: string, config: Config)
    requires item.Setting? && GoodItem(item) && (rest == [] || !IsValue(rest[0]))
    ensures SettingTurn(RenderItem(item, rest), section, config) ==
            Next(rest, section, Put(config, section, item.key, item.value))
  {
    hide All, IsBlank, IsName, IsSpaceOnly, IsValue, Put, Span, Within;
    var s0 := item.value + rest;
    var s1 := item.right + s0;
    var s2 := ['='] + s1;
    SettingBoundaries(item.key, item.left, item.value, rest, s1);
    Taken(IsValue, item.value, rest);
    Taken(IsBlank, item.right, s0);
    Taken(IsBlank, item.left, s2);
    Taken(IsName, item.key, item.left + s2);
  }

  lemma StartsWithName(s: string, section: string, config: Config)
    requires s != "" && IsName(s[0]) && section != ""
    ensures OneTurn(s, section, config) == SettingTurn(s, section, config)
  {
    hide SectionTurn, SettingTurn, Within;
    assert Span(IsSpace, s) == 0 && s[0..] == s;
  }

  lemma SettingParsed(item: Item, rest: string, section: string, config: Config)
    requires item.Setting? && GoodItem(item) && section != "" && !IsValue(Head(rest))
    ensures Parse(RenderItem(item, rest), section, config) == Parse(rest, section, ConfigAfter(item, section, config))
  {
    hide SettingTurn, OneTurn, Span, Put;
    var s := RenderItem(item, rest);
    assert s[0] == item.key[0];
    StartsWithName(s, section, config);
    SettingTurnIs(item, rest, section, config);
  }

  /** Parsing undoes rendering: the parser gets to what follows the entries with exactly what they say. */
  lemma {:induction false} ParseInvertsRender(entries: seq<Entry>, rest: string, section: string, config: Config)
    requires Good(entries, rest, section, config)
    ensures var (section', config') := Meaning(entries, section, config);
            Parse(Render(entries, rest), section, config) == Parse(rest, section', config')
    decreases |entries|
  {
    hide Parse, RenderItem, RenderFiller, GoodItem, GoodFiller;
    if entries != [] {
      var e, more := entries[0], Render(entries[1..], rest);
      FillerSkipped(e.before, RenderItem(e.item, more), section, config);
      if e.item.Section? {
        SectionParsed(e.item, more, section, config);
      } else {
        SettingParsed(e.item, more, section, config);
      }
      ParseInvertsRender(entries[1..], rest, SectionAfter(e.item, section), ConfigAfter(e.item, section, config));
    }
  }

  // ---- every file there is ----------------------------------------------------------------------------------------

  /** How a file ends: perhaps with a comment that no newline ends, and with a NUL what follows it is not read; or with
      one of the faults at which the parser stops, whatever comes after it. */
  datatype Ending = End(last: Option<string>, unread: string)
                  | Nameless(lead: string, rest: string)
                  | Reopened(lead: string, name: string, rest: string)
                  | Unclosed(lead: string, name: string, trail: string, rest: string)
                  | Outside(rest: string)
                  | Unassigned(key: string, left: string, rest: string)
                  | Valueless(key: string, left: string, right: string, rest: string)
                  | Strange(rest: string)

  datatype File = File(entries: seq<Entry>, after: seq<Filler>, ending: Ending)

  function RenderEnding(ending: Ending): string {
    match ending
    case End(last, unread) => (match last case None => "" case Some(text) => ['#'] + text) + unread
    case Nameless(lead, rest) => ['['] + (lead + rest)
    case Reopened(lead, name, rest) => ['['] + (lead + (name + rest))
    case Unclosed(lead, name, trail, rest) => ['['] + (lead + (name + (trail + rest)))
    case Outside(rest) => rest
    case Unassigned(key, left, rest) => key + (left + rest)
    case Valueless(key, left, right, rest) => key + (left + (['='] + (right + rest)))
    case Strange(rest) => rest
  }

  function RenderRest(f: File): string { RenderFiller(f.after, RenderEnding(f.ending)) }

  function RenderFile(f: File): string { Render(f.entries, RenderRest(f)) }

  ghost predicate GoodEnding(ending: Ending, section: string, config: Config) {
    match ending
    case End(last, unread) => (last.Some? ==> All(IsComment, last.value)) && Head(unread) == NUL
    case Nameless(lead, rest) => All(IsSpaceOnly, lead) && !IsSpaceOnly(Head(rest)) && !IsName(Head(rest))
    case Reopened(lead, name, rest) =>
      && All(IsSpaceOnly, lead) && name != "" && All(IsName, name) && !IsName(Head(rest))
      && name in config
    case Unclosed(lead, name, trail, rest) =>
      && All(IsSpaceOnly, lead) && name != "" && All(IsName, name) && All(IsBlank, trail)
      && !IsBlank(Head(rest)) && !IsName(Head(trail + rest)) && Head(rest) != ']'
      && name !in config
    case Outside(rest) => section == "" && IsName(Head(rest))
    case Unassigned(key, left, rest) =>
      && section != "" && key != "" && All(IsName, key) && All(IsBlank, left)
      && !IsBlank(Head(rest)) && !IsName(Head(left + rest)) && Head(rest) != '='
    case Valueless(key, left, right, rest) =>
      && section != "" && key != "" && All(IsName, key) && All(IsBlank, left) && All(IsBlank, right)
      && !IsBlank(Head(rest)) && !IsValue(Head(rest))
    case Strange(rest) =>
      var c := Head(rest);
      c != NUL && c != '#' && c != '[' && !IsSpace(c) && !IsName(c)
  }

  ghost predicate GoodFrom(f: File, section: string, config: Config) {
    && Good(f.entries, RenderRest(f), section, config) && GoodFiller(f.after)
    && var (section', config') := Meaning(f.entries, section, config); GoodEnding(f.ending, section', config')
  }

  ghost predicate GoodFile(f: File) { GoodFrom(f, "", map[]) }

  /** What comes of an ending: for each fault its error, the place of it, and what has been read by then. */
  function Ended(ending: Ending, config: Config): Outcome {
    match ending
    case End(_, _) => Done(config)
    case Nameless(_, rest) => Failed(BadSectionName, |rest|, config)
    case Reopened(_, name, rest) => Failed(DuplicatedSection, |name + rest|, config)
    case Unclosed(_, name, _, rest) => Failed(NoBracket, |rest|, config[name := map[]])
    case Outside(rest) => Failed(NoSection, |rest|, config)
    case Unassigned(_, _, _) => Failed(NoEquals, |RenderEnding(ending)|, config)
    case Valueless(_, _, right, rest) => Failed(NoValue, |['='] + right + rest|, config)
    case Strange(rest) => Failed(Unrecognized, |rest|, config)
  }

  function Says(f: File, section: string, config: Config): Outcome {
    Ended(f.ending, Meaning(f.entries, section, config).1)
  }

  lemma NothingLeft(s: string, section: string, config: Config)
    requires Head(s) == NUL
    ensures Parse(s, section, config) == Done(config)
  {
    assert Span(IsSpace, s) == 0 && s[0..] == s;
  }

  lemma LastCommentSkipped(text: string, unread: string, section: string, config: Config)
    requires All(IsComment, text) && Head(unread) == NUL
    ensures Parse(['#'] + text + unread, section, config) == Done(config)
  {
    hide OneTurn;
    CommentTurn(text, unread, section, config);
    NothingLeft(unread, section, config);
  }

  lemma HeaderFails(ending: Ending, section: string, config: Config)
    requires ending.Nameless? || ending.Reopened? || ending.Unclosed?
    requires GoodEnding(ending, section, config)
    ensures SectionTurn(RenderEnding(ending)[1..], config) == Stop(Ended(ending, config))
  {
    hide All, IsBlank, IsName, IsSpaceOnly, Span, Within;
    match ending
    case Nameless(lead, rest) =>
      HeadersBegin(lead, "", rest);
      Taken(IsSpaceOnly, lead, rest);
      assert (['['] + (lead + rest))[1..] == lead + rest;
    case Reopened(lead, name, rest) =>
      HeadersBegin(lead, name, rest);
      Taken(IsName, name, rest);
      Taken(IsSpaceOnly, lead, name + rest);
      assert (['['] + (lead + (name + rest)))[1..] == lead + (name + rest);
    case Unclosed(lead, name, trail, rest) =>
      HeadersBegin(lead, name, trail + rest);
      Taken(IsBlank, trail, rest);
      Taken(IsName, name, trail + rest);
      Taken(IsSpaceOnly, lead, name + (trail + rest));
      assert (['['] + (lead + (name + (trail + rest))))[1..] == lead + (name + (trail + rest));
  }

  /** A name is no space, and where nothing is taken nothing satisfies. */
  lemma HeadersBegin(lead: string, name: string, rest: string)
    requires All(IsName, name)
    ensures name != "" ==> !IsSpaceOnly((name + rest)[0])
    ensures !IsName(Head(rest)) ==> Span(IsName, rest) == 0
  {
  }

  lemma SettingFails(ending: Ending, section: string, config: Config)
    requires ending.Unassigned? || ending.Valueless?
    requires GoodEnding(ending, section, config)
    ensures SettingTurn(RenderEnding(ending), section, config) == Stop(Ended(ending, config))
  {
    hide All, IsBlank, IsName, IsSpaceOnly, IsValue, Span, Within;
    match ending
    case Unassigned(key, left, rest) =>
      Taken(IsBlank, left, rest);
      Taken(IsName, key, left + rest);
    case Valueless(key, left, right, rest) =>
      var s1 := right + rest;
      var s2 := ['='] + s1;
      ValuesBegin(left, rest, s1);
      Taken(IsBlank, right, rest);
      Taken(IsBlank, left, s2);
      Taken(IsName, key, left + s2);
      assert |['='] + right + rest| == |s2|;
  }

  lemma ValuesBegin(left: string, rest: string, s: string)
    requires All(IsBlank, left)
    ensures !IsBlank('=') && !IsName((left + (['='] + s))[0])
    ensures (['='] + s)[0] == '=' && (['='] + s)[1..] == s
    ensures !IsValue(Head(rest)) ==> Span(IsValue, rest) == 0
  {
  }

  lemma TurnAt(s: string, section: string, config: Config)
    requires s != "" && !IsSpace(s[0]) && s[0] != NUL && s[0] != '#'
    ensures OneTurn(s, section, config) ==
            if s[0] == '[' then SectionTurn(s[1..], config)
            else if !IsName(s[0]) then Stop(Failed(Unrecognized, |s|, config))
            else if section == "" then Stop(Failed(NoSection, |s|, config))
            else SettingTurn(s, section, config)
  {
    hide SectionTurn, SettingTurn, Within;
    assert Span(IsSpace, s) == 0 && s[0..] == s;
  }

  /** The ending decides: it is the end of the file, or the parser stops at its fault, with its error. */
  lemma EndingParsed(ending: Ending, section: string, config: Config)
    requires GoodEnding(ending, section, config)
    ensures Parse(RenderEnding(ending), section, config) == Ended(ending, config)
  {
    hide All, OneTurn, SectionTurn, SettingTurn, Span;
    var s := RenderEnding(ending);
    match ending
    case End(None, unread) =>
      assert s == unread;
      NothingLeft(unread, section, config);
    case End(Some(text), unread) => LastCommentSkipped(text, unread, section, config);
    case Nameless(_, _) =>
      TurnAt(s, section, config);
      HeaderFails(ending, section, config);
    case Reopened(_, _, _) =>
      TurnAt(s, section, config);
      HeaderFails(ending, section, config);
    case Unclosed(_, _, _, _) =>
      TurnAt(s, section, config);
      HeaderFails(ending, section, config);
    case Outside(_) => TurnAt(s, section, config);
    case Unassigned(key, _, _) =>
      KeyIsFirst(key, s);
      TurnAt(s, section, config);
      SettingFails(ending, section, config);
    case Valueless(key, _, _, _) =>
      KeyIsFirst(key, s);
      TurnAt(s, section, config);
      SettingFails(ending, section, config);
    case Strange(_) => TurnAt(s, section, config);
  }

  lemma KeyIsFirst(key: string, s: string)
    requires key != "" && key <= s && All(IsName, key)
    ensures s != "" && s[0] == key[0] && IsName(s[0])
  {
  }

  /** So the outcome of a file is what it says. */
  lemma FileParses(f: File, section: string, config: Config)
    requires GoodFrom(f, section, config)
    ensures Parse(RenderFile(f), section, config) == Says(f, section, config)
  {
    hide All, Ended, Good, GoodEnding, GoodFiller, Meaning, OneTurn, Render, RenderEnding, RenderFiller;
    var (section', config') := Meaning(f.entries, section, config);
    ParseInvertsRender(f.entries, RenderRest(f), section, config);
    FillerSkipped(f.after, RenderEnding(f.ending), section', config');
    EndingParsed(f.ending, section', config');
  }

  /** One more blank or comment in front. */
  function WithFiller(x: Filler, f: File): File {
    if f.entries == [] then f.(after := [x] + f.after) else
      var e := f.entries[0];
      f.(entries := [e.(before := [x] + e.before)] + f.entries[1..])
  }

  lemma FillerInFront(x: Filler, f: File, section: string, config: Config)
    requires GoodFrom(f, section, config) && GoodFiller([x])
    ensures GoodFrom(WithFiller(x, f), section, config)
    ensures RenderFile(WithFiller(x, f)) == RenderFiller([x], RenderFile(f))
  {
    hide GoodEnding, GoodItem, RenderEnding, RenderItem, SectionAfter, ConfigAfter;
    var g := WithFiller(x, f);
    if f.entries == [] {
      MoreFiller(x, f.after, RenderEnding(f.ending));
    } else {
      var e := f.entries[0];
      assert g.entries[1..] == f.entries[1..];
      MoreFiller(x, e.before, RenderItem(e.item, Render(f.entries[1..], RenderRest(f))));
    }
  }

  lemma MoreFiller(x: Filler, fs: seq<Filler>, rest: string)
    requires GoodFiller([x]) && GoodFiller(fs)
    ensures GoodFiller([x] + fs)
    ensures RenderFiller([x] + fs, rest) == RenderFiller([x], RenderFiller(fs, rest))
  {
    assert ([x] + fs)[1..] == fs;
    assert [x][1..] == [];
    var gs := [x] + fs;
    assert [x][0] == x;
    forall i | 0 <= i < |gs| ensures GoodFiller([gs[i]]) {
      if i > 0 {
        assert gs[i] == fs[i - 1];
      }
    }
    assert forall i :: 0 <= i < |gs| ==> [gs[i]][0] == gs[i];
  }

  /** One more section or setting in front. */
  function WithItem(item: Item, f: File): File { f.(entries := [Entry([], item)] + f.entries) }

  lemma ItemInFront(item: Item, f: File, section: string, config: Config)
    requires GoodFrom(f, SectionAfter(item, section), ConfigAfter(item, section, config)) && GoodItem(item)
    requires item.Section? ==> item.name !in config
    requires item.Setting? ==> section != "" && !IsValue(Head(RenderFile(f)))
    ensures GoodFrom(WithItem(item, f), section, config)
    ensures RenderFile(WithItem(item, f)) == RenderItem(item, RenderFile(f))
  {
    hide GoodEnding, GoodItem, IsValue, RenderEnding, RenderItem, SectionAfter, ConfigAfter;
    assert WithItem(item, f).entries[1..] == f.entries;
  }

  lemma Split(p: char -> bool, s: string) returns (a: string, b: string)
    requires !p(NUL)
    ensures s == a + b && All(p, a) && !p(Head(b))
    ensures s != "" && p(s[0]) ==> a != ""
  {
    var n := Span(p, s);
    a, b := s[..n], s[n..];
  }

  lemma OnlyEnding(ending: Ending, section: string, config: Config)
    requires GoodEnding(ending, section, config)
    ensures GoodFrom(File([], [], ending), section, config)
    ensures RenderFile(File([], [], ending)) == RenderEnding(ending)
  {
    hide GoodEnding, RenderEnding;
  }

  /** A section header, or what is wrong with it. */
  lemma SplitHeader(s: string, section: string, config: Config)
    returns (item: Item, rest: string, fault: Option<Ending>)
    requires s != "" && s[0] == '['
    ensures fault == None ==>
              item.Section? && GoodItem(item) && item.name !in config && RenderItem(item, rest) == s && |rest| < |s|
    ensures fault.Some? ==> GoodEnding(fault.value, section, config) && RenderEnding(fault.value) == s
  {
    hide All, IsBlank, IsName, IsSpaceOnly, Span;
    NulIsNothing();
    var lead, u := Split(IsSpaceOnly, s[1..]);
    var name, v := Split(IsName, u);
    var trail, w := Split(IsBlank, v);
    item, rest, fault := Section(lead, name, trail), "", None;
    assert s == ['['] + s[1..];
    if name == "" {
      assert u == v;
      fault := Some(Nameless(lead, u));
    } else if name in config {
      fault := Some(Reopened(lead, name, v));
    } else if Head(w) != ']' {
      fault := Some(Unclosed(lead, name, trail, w));
    } else {
      rest := w[1..];
      assert w == [']'] + rest;
    }
  }

  /** A key and its value, or what is wrong with them. */
  lemma SplitSetting(s: string, section: string, config: Config)
    returns (item: Item, rest: string, fault: Option<Ending>)
    requires s != "" && IsName(s[0]) && section != ""
    ensures fault == None ==>
              item.Setting? && GoodItem(item) && !IsValue(Head(rest)) && RenderItem(item, rest) == s && |rest| < |s|
    ensures fault.Some? ==> GoodEnding(fault.value, section, config) && RenderEnding(fault.value) == s
  {
    hide All, IsBlank, IsName, IsValue, Span;
    NulIsNothing();
    var key, u := Split(IsName, s);
    var left, v := Split(IsBlank, u);
    item, rest, fault := Setting(key, left, "", ""), "", None;
    if Head(v) != '=' {
      fault := Some(Unassigned(key, left, v));
      return;
    }
    assert v == ['='] + v[1..];
    var right, w := Split(IsBlank, v[1..]);
    var value, x := Split(IsValue, w);
    if value == "" {
      assert w == x;
      fault := Some(Valueless(key, left, right, w));
    } else {
      item, rest := Setting(key, left, right, value), x;
    }
  }

  /** A comment up to the end of its line, or of what is read. */
  lemma SplitComment(s: string, section: string, config: Config) returns (text: string, rest: string, last: bool)
    requires s != "" && s[0] == '#'
    ensures All(IsComment, text)
    ensures !last ==> s == RenderFiller([Comment(text)], rest) && |rest| < |s|
    ensures last ==> GoodEnding(End(Some(text), rest), section, config) && RenderEnding(End(Some(text), rest)) == s
  {
    hide All, Span;
    NulIsNothing();
    text, rest := Split(IsComment, s[1..]);
    assert s == ['#'] + s[1..] == ['#'] + text + rest;
    last := Head(rest) != '\n';
    if !last {
      rest := rest[1..];
      assert s == ['#'] + (text + (['\n'] + rest));
      assert [Comment(text)][1..] == [];
    }
  }

  lemma SplitSpace(s: string)
    requires s != ""
    ensures s == RenderFiller([White(s[0])], s[1..])
  {
    assert [White(s[0])][1..] == [];
  }

  /** There are no other files: whatever the parser is given is one. */
  lemma {:induction false} EveryStringIsAFile(s: string, section: string, config: Config) returns (f: File)
    ensures GoodFrom(f, section, config) && RenderFile(f) == s
    decreases |s|
  {
    hide All, GoodFrom, IsName, IsSpace, RenderFile, RenderItem;
    var fault: Ending;
    if Head(s) == NUL {
      fault := End(None, s);
      assert RenderEnding(fault) == s;
    } else if IsSpace(s[0]) {
      SplitSpace(s);
      f := EveryStringIsAFile(s[1..], section, config);
      FillerInFront(White(s[0]), f, section, config);
      return WithFiller(White(s[0]), f);
    } else if s[0] == '#' {
      var text, rest, last := SplitComment(s, section, config);
      if !last {
        f := EveryStringIsAFile(rest, section, config);
        FillerInFront(Comment(text), f, section, config);
        return WithFiller(Comment(text), f);
      }
      fault := End(Some(text), rest);
    } else if s[0] == '[' {
      var item, rest, wrong := SplitHeader(s, section, config);
      if wrong == None {
        f := EveryStringIsAFile(rest, item.name, ConfigAfter(item, section, config));
        ItemInFront(item, f, section, config);
        return WithItem(item, f);
      }
      fault := wrong.value;
    } else if !IsName(s[0]) {
      fault := Strange(s);
    } else if section == "" {
      fault := Outside(s);
    } else {
      var item, rest, wrong := SplitSetting(s, section, config);
      if wrong == None {
        f := EveryStringIsAFile(rest, section, ConfigAfter(item, section, config));
        ItemInFront(item, f, section, config);
        return WithItem(item, f);
      }
      fault := wrong.value;
    }
    OnlyEnding(fault, section, config);
    f := File([], [], fault);
  }

  /** A file without a fault. */
  ghost predicate Faultless(s: string) {
    exists f: File :: GoodFile(f) && f.ending.End? && RenderFile(f) == s
  }

  /** A file whose first fault gives this error at the place where so much is left. */
  ghost predicate Faulty(s: string, error: Error, left: nat) {
    exists f: File :: GoodFile(f) && RenderFile(f) == s && GivesError(Says(f, "", map[]), error, left)
  }

  predicate GivesError(outcome: Outcome, error: Error, left: nat) {
    match outcome
    case Done(_) => false
    case Failed(e, n, _) => e == error && n == left
  }

  /** Parsing succeeds exactly for the files without a fault, and fails exactly with the error, and at the place, of the
      fault; whatever the contents. */
  lemma ParsesExactly(s: string)
    ensures Parse(s, "", map[]).Done? <==> Faultless(s)
    ensures forall error, left :: GivesError(Parse(s, "", map[]), error, left) <==> Faulty(s, error, left)
  {
    hide GoodFrom, Parse, RenderFile;
    var f := EveryStringIsAFile(s, "", map[]);
    FileParses(f, "", map[]);
    forall g: File | GoodFile(g) && RenderFile(g) == s
      ensures Parse(s, "", map[]) == Says(g, "", map[])
    {
      FileParses(g, "", map[]);
    }
  }

  /** The section the i-th entry is in. */
  function SectionAt(entries: seq<Entry>, section: string, i: nat): string
    requires i < |entries|
  {
    if i == 0 then section else SectionAt(entries[1..], SectionAfter(entries[0].item, section), i - 1)
  }

  /** The i-th entry gives section/key a value. */
  ghost predicate Sets(entries: seq<Entry>, section0: string, i: nat, section: string, key: string)
    requires i < |entries|
  {
    entries[i].item.Setting? && entries[i].item.key == key && SectionAt(entries, section0, i) == section
  }

  lemma SettingIsFound(config: Config, section: string, key: string, value: string)
    ensures Lookup(Put(config, section, key, value), section, key) == Some(value)
  {
  }

  lemma OtherwiseKept(item: Item, section0: string, config: Config, section: string, key: string)
    requires item.Section? ==> item.name !in config
    requires !(item.Setting? && item.key == key && section0 == section)
    ensures Lookup(ConfigAfter(item, section0, config), section, key) == Lookup(config, section, key)
  {
  }

  lemma {:induction false} NotSet(entries: seq<Entry>, rest: string, section0: string, config: Config,
                                  section: string, key: string)
    requires Good(entries, rest, section0, config)
    requires forall j :: 0 <= j < |entries| ==> !Sets(entries, section0, j, section, key)
    ensures Lookup(Meaning(entries, section0, config).1, section, key) == Lookup(config, section, key)
    decreases |entries|
  {
    hide ConfigAfter, GoodFiller, GoodItem, Lookup, Render, SectionAfter;
    if entries != [] {
      var e := entries[0];
      var section1, config1 := SectionAfter(e.item, section0), ConfigAfter(e.item, section0, config);
      assert !Sets(entries, section0, 0, section, key);
      OtherwiseKept(e.item, section0, config, section, key);
      forall j | 0 <= j < |entries[1..]| ensures !Sets(entries[1..], section1, j, section, key) {
        assert !Sets(entries, section0, j + 1, section, key);
      }
      NotSet(entries[1..], rest, section1, config1, section, key);
    }
  }

  lemma {:induction false} LastIsKept(entries: seq<Entry>, rest: string, section0: string, config: Config,
                                      section: string, key: string, i: nat)
    requires Good(entries, rest, section0, config)
    requires i < |entries| && Sets(entries, section0, i, section, key)
    requires forall j :: i < j < |entries| ==> !Sets(entries, section0, j, section, key)
    ensures Lookup(Meaning(entries, section0, config).1, section, key) == Some(entries[i].item.value)
    decreases |entries|
  {
    hide GoodFiller, GoodItem, Lookup, Put, Render, SectionAfter;
    var e := entries[0];
    var section1, config1 := SectionAfter(e.item, section0), ConfigAfter(e.item, section0, config);
    forall j | i - 1 < j < |entries[1..]| ensures !Sets(entries[1..], section1, j, section, key) {
      assert !Sets(entries, section0, j + 1, section, key);
    }
    if i == 0 {
      SettingIsFound(config, section, key, e.item.value);
      NotSet(entries[1..], rest, section1, config1, section, key);
    } else {
      LastIsKept(entries[1..], rest, section1, config1, section, key, i - 1);
    }
  }

  /** What such entries give for a section and key: the last value they set, and nothing if they set none. */
  ghost predicate GivesLast(entries: seq<Entry>, section: string, key: string, found: Option<string>) {
    && (forall i :: 0 <= i < |entries| && Sets(entries, "", i, section, key)
                    && (forall j :: i < j < |entries| ==> !Sets(entries, "", j, section, key))
                    ==> found == Some(entries[i].item.value))
    && ((forall i :: 0 <= i < |entries| ==> !Sets(entries, "", i, section, key)) ==> found == None)
  }

  lemma FaultSetsNothing(ending: Ending, section0: string, config: Config, section: string, key: string)
    requires GoodEnding(ending, section0, config)
    ensures Lookup(Ended(ending, config).config, section, key) == Lookup(config, section, key)
  {
  }

  /** After a file has been parsed, looking up a section and key gives the last value the file has for them before its
      end or its first fault; a pair the file has no value for is not found. */
  lemma LookupGivesLast(f: File, section: string, key: string)
    requires GoodFile(f)
    ensures GivesLast(f.entries, section, key, Lookup(Parse(RenderFile(f), "", map[]).config, section, key))
  {
    hide Ended, Good, GoodEnding, GoodFiller, Parse, RenderRest, RenderFile;
    var entries, rest := f.entries, RenderRest(f);
    FileParses(f, "", map[]);
    var (section', config') := Meaning(entries, "", map[]);
    FaultSetsNothing(f.ending, section', config', section, key);
    forall i | 0 <= i < |entries| && Sets(entries, "", i, section, key)
               && (forall j :: i < j < |entries| ==> !Sets(entries, "", j, section, key))
      ensures Lookup(config', section, key) == Some(entries[i].item.value)
    {
      LastIsKept(entries, rest, "", map[], section, key, i);
    }
    if forall i :: 0 <= i < |entries| ==> !Sets(entries, "", i, section, key) {
      NotSet(entries, rest, "", map[], section, key);
    }
  }
}
