/**
 * Alias resolution of `tkmail.address`: a recipient such as
 * `BEST-CERM+FUAB` is split into signed aliases, each alias is resolved by
 * the first of three matchers that accepts it (a database group, a title
 * read by `tk.parse`, `DIRECTUSER<n>`), and the person ids are folded
 * left to right with union and difference, keeping one origin per id.
 *
 * The database, `tk.parse` and the group regular expressions are the
 * read-only functions of a `Facts` value.
 */
module Aliases {
  import opened Common
  import opened Sorting
  import opened Periods

  // ---------------------------------------------------------------------
  // The collaborators

  /** A row of `get_groups`: the id, the name and the pattern of a group. */
  datatype Group = Group(id: int, name: string, pattern: string)

  /** What `tk.parse` returns: the title's base and its period. */
  datatype Title = Title(base: string, period: int)

  datatype Facts = Facts(
    groups: seq<Group>,
    // re.match('^(?P<name>%s)$' % pattern, alias): the pattern matches the whole alias
    fullMatch: (string, string) -> bool,
    groupMembers: int -> seq<int>,
    bestfuMembers: (string, int) -> seq<int>,
    userByTitle: (string, int) -> seq<int>,
    userById: int -> seq<int>,
    // tk.parse(alias, current_period); None where it raises ValueError
    tkParse: (string, int) -> Option<Title>)

  /** The canonical form of a resolved alias: GroupAlias, PeriodAlias or DirectAlias. */
  datatype Origin =
    | GroupAlias(name: string)
    | PeriodAlias(kind: string, period: int, name: string)
    | DirectAlias(pk: int, name: string)

  /** The database lookup a matcher hands back, to be run later. */
  datatype Fetch =
    | GroupMembers(groupId: int)
    | BestAndFu(period: int)
    | OfKind(kind: string, period: int)
    | ByTitle(title: string, period: int)
    | ById(pk: int)

  /** What a matcher returns: `(None, None)` or a fetch and the origin. */
  datatype Match = NoMatch | Matched(fetch: Fetch, origin: Origin)

  /** The exceptions of alias resolution. */
  datatype Raised = InvalidRecipient(arg: PyValue) | ValueError

  /** Calling the fetch a matcher returned. */
  function Run(facts: Facts, f: Fetch): seq<int> {
    match f
    case GroupMembers(id) => facts.groupMembers(id)
    case BestAndFu(period) => facts.bestfuMembers("BEST", period) + facts.bestfuMembers("FU", period)
    case OfKind(kind, period) => facts.bestfuMembers(kind, period)
    case ByTitle(title, period) => facts.userByTitle(title, period)
    case ById(pk) => facts.userById(pk)
  }

  // ---------------------------------------------------------------------
  // parse_alias_group

  predicate GroupMatches(facts: Facts, alias: string, i: int)
    requires 0 <= i < |facts.groups|
  {
    facts.fullMatch(facts.groups[i].pattern, alias)
  }

  /** The positions, among the first `n` groups, of those whose pattern matches `alias`, ascending. */
  function MatchingGroups(facts: Facts, alias: string, n: nat): (r: seq<int>)
    requires n <= |facts.groups|
    ensures forall k :: 0 <= k < |r| ==> 0 <= r[k] < n && GroupMatches(facts, alias, r[k])
    ensures forall i :: 0 <= i < n && GroupMatches(facts, alias, i) ==> i in r
    ensures forall k, l :: 0 <= k < l < |r| ==> r[k] < r[l]
  {
    if n == 0 then []
    else MatchingGroups(facts, alias, n - 1) + if GroupMatches(facts, alias, n - 1) then [n - 1] else []
  }

  /** parse_alias_group: `ValueError` when two groups match, the group when one does. */
  function MatchGroup(facts: Facts, alias: string): Result<Match, Raised> {
    var found := MatchingGroups(facts, alias, |facts.groups|);
    if |found| > 1 then Err(ValueError)
    else if |found| == 1 then
      var g := facts.groups[found[0]];
      Ok(Matched(GroupMembers(g.id), GroupAlias(g.name)))
    else Ok(NoMatch)
  }

  /** parse_alias_group declines exactly when no group's pattern matches the whole alias. */
  lemma NoGroupMatches(facts: Facts, alias: string)
    ensures MatchGroup(facts, alias) == Ok(NoMatch) <==>
      forall i :: 0 <= i < |facts.groups| ==> !GroupMatches(facts, alias, i)
  {
    var found := MatchingGroups(facts, alias, |facts.groups|);
    if |found| != 0 {
      assert GroupMatches(facts, alias, found[0]);
    }
  }

  /** parse_alias_group raises ValueError exactly when two groups match. */
  lemma AmbiguousGroup(facts: Facts, alias: string)
    ensures MatchGroup(facts, alias) == Err(ValueError) <==>
      exists i, j :: 0 <= i < j < |facts.groups| && GroupMatches(facts, alias, i) && GroupMatches(facts, alias, j)
  {
    var found := MatchingGroups(facts, alias, |facts.groups|);
    if |found| > 1 {
      assert found[0] < found[1];
      assert GroupMatches(facts, alias, found[0]) && GroupMatches(facts, alias, found[1]);
    } else {
      forall i, j | 0 <= i < j < |facts.groups| && GroupMatches(facts, alias, i)
        ensures !GroupMatches(facts, alias, j)
      {
        OnlyMember(found, i, j);
      }
    }
  }

  /** A sequence of at most one element does not hold two different values. */
  lemma OnlyMember(s: seq<int>, i: int, j: int)
    requires |s| <= 1 && i != j && i in s
    ensures j !in s
  {
  }

  /** When parse_alias_group accepts, one group alone matches, and the matcher yields its members and name. */
  lemma OneGroup(facts: Facts, alias: string)
    requires MatchGroup(facts, alias).Ok? && MatchGroup(facts, alias).value.Matched?
    ensures exists i :: && 0 <= i < |facts.groups| && GroupMatches(facts, alias, i)
                        && (forall j :: 0 <= j < |facts.groups| && j != i ==> !GroupMatches(facts, alias, j))
                        && MatchGroup(facts, alias).value
                           == Matched(GroupMembers(facts.groups[i].id), GroupAlias(facts.groups[i].name))
  {
    var found := MatchingGroups(facts, alias, |facts.groups|);
    assert |found| == 1;
    var i := found[0];
    forall j | 0 <= j < |facts.groups| && j != i ensures !GroupMatches(facts, alias, j) {
      OnlyMember(found, i, j);
    }
  }

  // ---------------------------------------------------------------------
  // parse_alias_title

  /** The titles of the board. */
  const BestTitles: seq<string> := ["CERM", "FORM", "INKA", "KASS", "NF", "PR", "SEKR", "VC"]

  /**
   * `\w` of a str pattern: letters, digits and numerals (`str.isalnum`) and
   * the underscore. Exact for code points below 256.
   */
  predicate IsWordChar(c: char) {
    var n := c as int;
    || ('0' <= c <= '9') || ('A' <= c <= 'Z') || ('a' <= c <= 'z') || c == '_'
    || n == 0xAA || n == 0xB2 || n == 0xB3 || n == 0xB5 || n == 0xB9 || n == 0xBA
    || (0xBC <= n <= 0xBE) || (0xC0 <= n <= 0xD6) || (0xD8 <= n <= 0xF6) || (0xF8 <= n <= 0xFF)
  }

  /** `\w+$`: word characters to the end, or to a final newline. */
  predicate WordsToEnd(s: string) {
    var w := if s != [] && s[|s| - 1] == '\n' then s[..|s| - 1] else s;
    w != [] && forall i :: 0 <= i < |w| ==> IsWordChar(w[i])
  }

  /** `re.match(r'^E?FU\w+$', base)` */
  predicate IsFuTitle(base: string) {
    || (|base| >= 2 && base[..2] == "FU" && WordsToEnd(base[2..]))
    || (|base| >= 3 && base[..3] == "EFU" && WordsToEnd(base[3..]))
  }

  /** A base the title matcher accepts. */
  predicate IsTitleBase(base: string) {
    base == "BESTFU" || base == "BEST" || base == "FU" || base == "EFU" || base in BestTitles || IsFuTitle(base)
  }

  /**
   * parse_alias_title. Whatever the base, the origin is tagged with the
   * kind "BESTFU".
   */
  function MatchTitle(facts: Facts, alias: string, current: int): (r: Match)
    ensures r.Matched? <==> facts.tkParse(alias, current).Some? && IsTitleBase(facts.tkParse(alias, current).value.base)
    ensures r.Matched? ==> r.origin == PeriodAlias("BESTFU", facts.tkParse(alias, current).value.period, alias)
  {
    match facts.tkParse(alias, current)
    case None => NoMatch
    case Some(Title(base, period)) =>
      var origin := PeriodAlias("BESTFU", period, alias);
      if base == "BESTFU" then Matched(BestAndFu(period), origin)
      else if base == "BEST" || base == "FU" || base == "EFU" then Matched(OfKind(base, period), origin)
      else if base in BestTitles || IsFuTitle(base) then Matched(ByTitle(base, period), origin)
      else NoMatch
  }

  /** The members a title resolves to: BEST and FU together, one kind, or the holders of one title. */
  lemma TitleMembers(facts: Facts, alias: string, current: int)
    requires MatchTitle(facts, alias, current).Matched?
    ensures var t := facts.tkParse(alias, current).value;
      Run(facts, MatchTitle(facts, alias, current).fetch) ==
        if t.base == "BESTFU" then facts.bestfuMembers("BEST", t.period) + facts.bestfuMembers("FU", t.period)
        else if t.base == "BEST" || t.base == "FU" || t.base == "EFU" then facts.bestfuMembers(t.base, t.period)
        else facts.userByTitle(t.base, t.period)
  {
  }

  // ---------------------------------------------------------------------
  // parse_alias_direct_user

  const DirectPrefix := "DIRECTUSER"

  /** The digits of `re.match(r'^DIRECTUSER(\d+)$', alias)`, if it matches. */
  function DirectDigits(alias: string): (r: Option<string>)
    ensures r.Some? ==> r.value != [] && AllDigits(r.value)
  {
    if |alias| > |DirectPrefix| && alias[..|DirectPrefix|] == DirectPrefix then
      var rest := alias[|DirectPrefix|..];
      var digits := if rest[|rest| - 1] == '\n' then rest[..|rest| - 1] else rest;
      if digits != [] && AllDigits(digits) then Some(digits) else None
    else None
  }

  /** parse_alias_direct_user */
  function MatchDirect(alias: string): Match {
    match DirectDigits(alias)
    case None => NoMatch
    case Some(digits) =>
      var pk := DigitsValue(digits);
      Matched(ById(pk), DirectAlias(pk, alias))
  }

  /**
   * `DIRECTUSER` followed by a numeral, with leading zeros or a final
   * newline or neither, names the user with that id. DirectUserOnly
   * states the converse.
   */
  lemma DirectUserAlias(d: string, newline: bool)
    requires d != [] && AllDigits(d)
    ensures var alias := DirectPrefix + d + (if newline then "\n" else "");
      MatchDirect(alias) == Matched(ById(DigitsValue(d)), DirectAlias(DigitsValue(d), alias))
  {
    var tail := d + (if newline then "\n" else "");
    var alias := DirectPrefix + tail;
    assert DirectPrefix + d + (if newline then "\n" else "") == alias;
    ConcatSplit(DirectPrefix, tail);
    var rest := alias[|DirectPrefix|..];
    assert rest == tail;
    if newline {
      assert rest[..|rest| - 1] == d;
    } else {
      assert tail == d;
      assert IsDigit(d[|d| - 1]);
    }
  }

  /**
   * The matcher accepts nothing else: an accepted alias is `DIRECTUSER`,
   * its digits and at most a final newline, as `$` allows.
   */
  lemma DirectUserOnly(alias: string)
    requires MatchDirect(alias).Matched?
    ensures var d := DirectDigits(alias).value;
      d != [] && AllDigits(d) && (alias == DirectPrefix + d || alias == DirectPrefix + d + "\n")
  {
    var rest := alias[|DirectPrefix|..];
    assert alias == DirectPrefix + rest;
    if rest[|rest| - 1] == '\n' {
      assert rest == rest[..|rest| - 1] + "\n";
    }
  }

  /** Examples the converse rules out: a letter after the digits, and two newlines. */
  lemma DirectUserRefusesTrailing()
    ensures MatchDirect("DIRECTUSER1A") == NoMatch
    ensures MatchDirect("DIRECTUSER1\n\n") == NoMatch
    ensures MatchDirect("DIRECTUSER") == NoMatch
  {
    assert "DIRECTUSER1A"[..|DirectPrefix|] == DirectPrefix;
    assert "DIRECTUSER1A"[|DirectPrefix|..] == "1A";
    assert !IsDigit("1A"[1]);
    assert "DIRECTUSER1\n\n"[..|DirectPrefix|] == DirectPrefix;
    assert "DIRECTUSER1\n\n"[|DirectPrefix|..] == "1\n\n";
    assert "1\n\n"[..2] == "1\n";
    assert !IsDigit("1\n"[1]);
  }

  lemma ConcatSplit(a: string, b: string)
    ensures (a + b)[..|a|] == a && (a + b)[|a|..] == b
  {
  }

  lemma DirectUserRoundTrip(n: nat)
    ensures MatchDirect(DirectPrefix + Decimal(n)) == Matched(ById(n), DirectAlias(n, DirectPrefix + Decimal(n)))
  {
    DirectUserAlias(Decimal(n), false);
    assert DirectPrefix + Decimal(n) + "" == DirectPrefix + Decimal(n);
    DecimalValue(n);
  }

  lemma DirectUserRefuses(alias: string)
    requires |alias| <= |DirectPrefix| || alias[..|DirectPrefix|] != DirectPrefix
    ensures MatchDirect(alias) == NoMatch
  {
  }

  // ---------------------------------------------------------------------
  // parse_alias

  /** The person ids an alias resolves to, and its origin. */
  datatype Resolved = Resolved(ids: seq<int>, origin: Origin)

  /** The matcher that answers, group first, then title, then direct user; `NoMatch` if none does. */
  function FirstMatch(group: Match, facts: Facts, alias: string, current: int): Match {
    if group.Matched? then group
    else
      var title := MatchTitle(facts, alias, current);
      if title.Matched? then title else MatchDirect(alias)
  }

  /** parse_alias */
  function ParseAlias(facts: Facts, alias: string, current: int): Result<Resolved, Raised> {
    match MatchGroup(facts, alias)
    case Err(e) => Err(e)
    case Ok(group) =>
      var m := FirstMatch(group, facts, alias, current);
      if m.NoMatch? then Err(InvalidRecipient(Str(alias)))
      else
        var ids := Run(facts, m.fetch);
        if ids == [] then Err(InvalidRecipient(Str(alias)))
        else Ok(Resolved(ids, m.origin))
  }

  /**
   * parse_alias either raises the ValueError of an ambiguous group, or
   * raises `InvalidRecipient(alias)` when no matcher accepts or the lookup
   * finds nobody, or returns a non-empty list of ids with the origin of
   * the first matcher that accepted.
   */
  lemma ParseAliasOutcome(facts: Facts, alias: string, current: int)
    ensures ParseAlias(facts, alias, current) == Err(ValueError) <==> MatchGroup(facts, alias).Err?
    ensures ParseAlias(facts, alias, current).Err? && ParseAlias(facts, alias, current).error.InvalidRecipient? ==>
      ParseAlias(facts, alias, current).error.arg == Str(alias)
    ensures MatchGroup(facts, alias).Ok? ==>
      var m := FirstMatch(MatchGroup(facts, alias).value, facts, alias, current);
      && (ParseAlias(facts, alias, current).Ok? <==> m.Matched? && Run(facts, m.fetch) != [])
      && (ParseAlias(facts, alias, current).Ok? ==>
            ParseAlias(facts, alias, current).value == Resolved(Run(facts, m.fetch), m.origin))
    ensures ParseAlias(facts, alias, current).Ok? ==> ParseAlias(facts, alias, current).value.ids != []
  {
  }

  /** A matching group wins over any title and any direct user. */
  lemma GroupComesFirst(facts: Facts, alias: string, current: int, i: int)
    requires 0 <= i < |facts.groups| && GroupMatches(facts, alias, i)
    requires forall j :: 0 <= j < |facts.groups| && j != i ==> !GroupMatches(facts, alias, j)
    ensures var g := facts.groups[i];
      ParseAlias(facts, alias, current) ==
        if facts.groupMembers(g.id) == [] then Err(InvalidRecipient(Str(alias)))
        else Ok(Resolved(facts.groupMembers(g.id), GroupAlias(g.name)))
  {
    NoGroupMatches(facts, alias);
    AmbiguousGroup(facts, alias);
    assert MatchGroup(facts, alias).Ok? && MatchGroup(facts, alias).value.Matched?;
    OneGroup(facts, alias);
  }

  /** Where no group matches, a title wins over a direct user. */
  lemma TitleComesSecond(facts: Facts, alias: string, current: int)
    requires forall i :: 0 <= i < |facts.groups| ==> !GroupMatches(facts, alias, i)
    requires MatchTitle(facts, alias, current).Matched?
    ensures var m := MatchTitle(facts, alias, current);
      ParseAlias(facts, alias, current) ==
        if Run(facts, m.fetch) == [] then Err(InvalidRecipient(Str(alias)))
        else Ok(Resolved(Run(facts, m.fetch), PeriodAlias("BESTFU", facts.tkParse(alias, current).value.period, alias)))
  {
    NoGroupMatches(facts, alias);
  }

  /** Where neither a group nor a title matches, `DIRECTUSER<n>` resolves to user n. */
  lemma DirectComesLast(facts: Facts, alias: string, current: int)
    requires forall i :: 0 <= i < |facts.groups| ==> !GroupMatches(facts, alias, i)
    requires !MatchTitle(facts, alias, current).Matched?
    ensures ParseAlias(facts, alias, current) ==
      match DirectDigits(alias)
      case None => Err(InvalidRecipient(Str(alias)))
      case Some(d) =>
        if facts.userById(DigitsValue(d)) == [] then Err(InvalidRecipient(Str(alias)))
        else Ok(Resolved(facts.userById(DigitsValue(d)), DirectAlias(DigitsValue(d), alias)))
  {
    NoGroupMatches(facts, alias);
    assert MatchGroup(facts, alias) == Ok(NoMatch);
    assert FirstMatch(NoMatch, facts, alias, current) == MatchDirect(alias);
  }

  // ---------------------------------------------------------------------
  // The tokens of parse_recipient

  /** `[^+-]+` starting at the front of `s`, as long as it goes. */
  function NameRun(s: string): (r: string)
    ensures |r| <= |s| && r == s[..|r|]
    ensures forall i :: 0 <= i < |r| ==> !IsSign(r[i])
    ensures |r| < |s| ==> IsSign(s[|r|])
  {
    if s != [] && !IsSign(s[0]) then [s[0]] + NameRun(s[1..]) else []
  }

  /** A signed alias; a missing sign is `+`. */
  datatype Token = Token(sign: char, name: string)

  predicate WellFormed(t: Token) {
    IsSign(t.sign) && t.name != [] && forall i :: 0 <= i < |t.name| ==> !IsSign(t.name[i])
  }

  /**
   * `re.findall(r'([+-]?)([^+-]+)', recipient)`, with `sign or '+'`
   * applied: a sign not followed by a name is skipped.
   */
  function Tokens(s: string): (r: seq<Token>)
    ensures forall k :: 0 <= k < |r| ==> WellFormed(r[k])
    decreases |s|
  {
    if s == [] then []
    else if IsSign(s[0]) then
      var name := NameRun(s[1..]);
      if name == [] then Tokens(s[1..]) else [Token(s[0], name)] + Tokens(s[1 + |name|..])
    else
      var name := NameRun(s);
      [Token('+', name)] + Tokens(s[|name|..])
  }

  /** A sign with no name after it, before another sign or at the end, is skipped. */
  lemma SignWithoutName(c: char, s: string)
    requires IsSign(c) && (s == [] || IsSign(s[0]))
    ensures Tokens([c] + s) == Tokens(s)
  {
    assert ([c] + s)[1..] == s;
  }

  /** An unsigned name before a sign or the end is read as one `+` token. */
  lemma UnsignedName(a: string, rest: string)
    requires a != [] && forall i :: 0 <= i < |a| ==> !IsSign(a[i])
    requires rest == [] || IsSign(rest[0])
    ensures Tokens(a + rest) == [Token('+', a)] + Tokens(rest)
  {
    assert (a + rest)[0] == a[0];
    NameRunOfName(a, rest);
    assert (a + rest)[|a|..] == rest;
  }

  /** A signed name before a sign or the end is read as one token. */
  lemma SignedName(c: char, b: string, rest: string)
    requires IsSign(c)
    requires b != [] && forall i :: 0 <= i < |b| ==> !IsSign(b[i])
    requires rest == [] || IsSign(rest[0])
    ensures Tokens([c] + b + rest) == [Token(c, b)] + Tokens(rest)
  {
    var s := [c] + b + rest;
    assert s[1..] == b + rest;
    NameRunOfName(b, rest);
    assert s[1 + |b|..] == rest;
  }

  /** With names `a` and `b`, `a--b` reads as `a` and `-b`, as `A--B` does. */
  lemma DoubledSign(a: string, b: string)
    requires a != [] && forall i :: 0 <= i < |a| ==> !IsSign(a[i])
    requires b != [] && forall i :: 0 <= i < |b| ==> !IsSign(b[i])
    ensures Tokens(a + "--" + b) == [Token('+', a), Token('-', b)]
  {
    var doubled := "--" + b;
    assert a + "--" + b == a + doubled;
    DoubledSignName(b);
    UnsignedName(a, doubled);
  }

  lemma DoubledSignName(b: string)
    requires b != [] && forall i :: 0 <= i < |b| ==> !IsSign(b[i])
    ensures Tokens("--" + b) == [Token('-', b)]
  {
    var signed := ['-'] + b;
    assert "--" + b == ['-'] + signed;
    SignWithoutName('-', signed);
    SignedName('-', b, []);
    assert ['-'] + b + [] == signed;
  }

  /** With a name `a`, `a-` reads as `a` alone, as `BEST-` does. */
  lemma TrailingSign(a: string)
    requires a != [] && forall i :: 0 <= i < |a| ==> !IsSign(a[i])
    ensures Tokens(a + "-") == [Token('+', a)]
  {
    var trailing: string := ['-'] + [];
    assert a + "-" == a + trailing;
    UnsignedName(a, trailing);
    SignWithoutName('-', []);
    assert Tokens(trailing) == [];
  }

  /** The text of signed aliases, each written with its sign. */
  function Written(ts: seq<Token>): string {
    if ts == [] then "" else [ts[0].sign] + ts[0].name + Written(ts[1..])
  }

  lemma {:induction false} NameRunOfName(name: string, rest: string)
    requires forall i :: 0 <= i < |name| ==> !IsSign(name[i])
    requires rest == [] || IsSign(rest[0])
    ensures NameRun(name + rest) == name
    decreases |name|
  {
    if name == [] {
      assert name + rest == rest;
    } else {
      assert (name + rest)[1..] == name[1..] + rest;
      NameRunOfName(name[1..], rest);
      assert [name[0]] + name[1..] == name;
    }
  }

  /** Splitting reads back every sequence of signed aliases written out. */
  lemma {:induction false} TokensRoundTrip(ts: seq<Token>)
    requires forall k :: 0 <= k < |ts| ==> WellFormed(ts[k])
    ensures Tokens(Written(ts)) == ts
    decreases |ts|
  {
    if ts != [] {
      var t, rest := ts[0], ts[1..];
      TokensRoundTrip(rest);
      var tail := Written(rest);
      assert Written(ts) == [t.sign] + t.name + tail;
      assert tail == [] || IsSign(tail[0]) by {
        if rest != [] {
          assert rest[0] == ts[1];
        }
      }
      TokensCons(t, tail);
    }
  }

  lemma TokensCons(t: Token, tail: string)
    requires WellFormed(t)
    requires tail == [] || IsSign(tail[0])
    ensures Tokens([t.sign] + t.name + tail) == [t] + Tokens(tail)
  {
    var p := [t.sign] + t.name + tail;
    assert p[1..] == t.name + tail;
    NameRunOfName(t.name, tail);
    assert p[1 + |t.name|..] == tail;
  }

  /** A leading alias without a sign counts as added. */
  lemma UnsignedFirstAlias(name: string, ts: seq<Token>)
    requires WellFormed(Token('+', name))
    requires forall k :: 0 <= k < |ts| ==> WellFormed(ts[k])
    ensures Tokens(name + Written(ts)) == [Token('+', name)] + ts
  {
    TokensRoundTrip(ts);
    var tail := Written(ts);
    assert tail == [] || IsSign(tail[0]);
    NameRunOfName(name, tail);
    assert (name + tail)[|name|..] == tail;
  }

  // ---------------------------------------------------------------------
  // The fold of parse_recipient

  /** One entry of `personIdOps`: the sign, the ids and the origin of a resolved alias. */
  datatype Op = Op(sign: char, ids: seq<int>, origin: Origin)

  /** `recipient_ids` and `origin` in the fold. */
  datatype Folded = Folded(ids: set<int>, origin: map<int, Origin>)

  /** The `origin` entries a `+` alias sets. */
  function Tagged(op: Op): map<int, Origin> {
    TagAll(op.ids, op.origin)
  }

  function TagAll(ids: seq<int>, o: Origin): map<int, Origin> {
    map p | p in ids :: o
  }

  lemma TagAllSnoc(origin: map<int, Origin>, ids: seq<int>, x: int, o: Origin)
    ensures origin + TagAll(ids + [x], o) == (origin + TagAll(ids, o))[x := o]
  {
    var l, r := origin + TagAll(ids + [x], o), (origin + TagAll(ids, o))[x := o];
    assert forall p :: p in ids + [x] <==> p in ids || p == x;
    assert l.Keys == r.Keys;
  }

  /** One step of the fold: `+` unions and sets origins, anything else takes away. */
  function Apply(acc: Folded, op: Op): Folded {
    if op.sign == '+' then Folded(acc.ids + Elements(op.ids), acc.origin + Tagged(op))
    else Folded(acc.ids - Elements(op.ids), acc.origin - Elements(op.ids))
  }

  /** The fold over `personIdOps`, left to right. */
  function Fold(ops: seq<Op>): Folded {
    if ops == [] then Folded({}, map[]) else Apply(Fold(ops[..|ops| - 1]), ops[|ops| - 1])
  }

  /** The last operation mentions `p`, and it adds it. */
  ghost predicate LastAddedAt(ops: seq<Op>, p: int, i: int) {
    && 0 <= i < |ops| && ops[i].sign == '+' && p in ops[i].ids
    && forall j :: i < j < |ops| ==> p !in ops[j].ids
  }

  /**
   * An id survives the fold exactly when the last alias that names it is
   * added, not taken away, and then its origin is that alias's origin;
   * the ids that survive are exactly the keys of `origin`.
   */
  lemma {:induction false} FoldSpec(ops: seq<Op>, p: int)
    ensures Fold(ops).origin.Keys == Fold(ops).ids
    ensures p in Fold(ops).ids <==> exists i :: LastAddedAt(ops, p, i)
    ensures forall i :: LastAddedAt(ops, p, i) ==> Fold(ops).origin[p] == ops[i].origin
    decreases |ops|
  {
    if ops != [] {
      var init, op := ops[..|ops| - 1], ops[|ops| - 1];
      FoldSpec(init, p);
      assert forall k :: 0 <= k < |init| ==> init[k] == ops[k];
      var before := Fold(init);
      if p in op.ids {
        assert forall i :: LastAddedAt(ops, p, i) ==> i == |ops| - 1;
        if op.sign == '+' {
          assert LastAddedAt(ops, p, |ops| - 1);
        }
      } else {
        forall i | LastAddedAt(ops, p, i) ensures LastAddedAt(init, p, i) {
        }
        forall i | LastAddedAt(init, p, i) ensures LastAddedAt(ops, p, i) {
        }
      }
    }
  }

  /** Where every alias is added, the result is the union of their ids. */
  lemma AllAddedIsUnion(ops: seq<Op>, p: int)
    requires forall i :: 0 <= i < |ops| ==> ops[i].sign == '+'
    ensures p in Fold(ops).ids <==> exists i :: 0 <= i < |ops| && p in ops[i].ids
  {
    FoldSpec(ops, p);
    if i :| 0 <= i < |ops| && p in ops[i].ids {
      LastOf(ops, p, i);
    }
  }

  lemma {:induction false} LastOf(ops: seq<Op>, p: int, i: int)
    requires forall k :: 0 <= k < |ops| ==> ops[k].sign == '+'
    requires 0 <= i < |ops| && p in ops[i].ids
    ensures exists k :: LastAddedAt(ops, p, k)
    decreases |ops| - i
  {
    if exists j :: i < j < |ops| && p in ops[j].ids {
      var j :| i < j < |ops| && p in ops[j].ids;
      LastOf(ops, p, j);
    } else {
      assert LastAddedAt(ops, p, i);
    }
  }

  /** The ids of some aliases, taken together. */
  function IdsOf(ops: seq<Op>): set<int> {
    set i, p | 0 <= i < |ops| && p in ops[i].ids :: p
  }

  /**
   * An alias followed by aliases that are all taken away leaves its ids
   * without theirs: when BEST is FORM and the other titles, with no one
   * holding two titles, `BEST-CERM-INKA-KASS-NF-PR-SEKR-VC` reaches the
   * same people as `FORM`.
   */
  lemma SameRecipients(form: Op, best: Op, others: seq<Op>)
    requires form.sign == '+' && best.sign == '+'
    requires forall i :: 0 <= i < |others| ==> others[i].sign == '-'
    requires Elements(best.ids) == Elements(form.ids) + IdsOf(others)
    requires Elements(form.ids) !! IdsOf(others)
    ensures Fold([form]).ids == Fold([best] + others).ids
  {
    var ops := [best] + others;
    assert [form][..0] == [];
    forall p ensures p in Fold(ops).ids <==> p in Elements(form.ids) {
      FoldSpec(ops, p);
      if p in Elements(form.ids) {
        assert p in best.ids;
        forall j | 0 < j < |ops| ensures p !in ops[j].ids {
          assert ops[j] == others[j - 1];
        }
        assert LastAddedAt(ops, p, 0);
      }
      if exists i :: LastAddedAt(ops, p, i) {
        var i :| LastAddedAt(ops, p, i);
        assert i == 0 by {
          assert forall j :: 0 < j < |ops| ==> ops[j] == others[j - 1];
        }
        assert p in Elements(best.ids);
        assert p !in IdsOf(others) by {
          assert forall k :: 0 <= k < |others| ==> ops[k + 1] == others[k];
        }
      }
    }
  }

  // ---------------------------------------------------------------------
  // parse_recipient

  /** What parse_alias does with each alias, in order. */
  function Outcomes(facts: Facts, ts: seq<Token>, current: int): (rs: seq<Result<Resolved, Raised>>)
    ensures |rs| == |ts|
  {
    seq(|ts|, i requires 0 <= i < |ts| => ParseAlias(facts, ts[i].name, current))
  }

  predicate IsValueError(r: Result<Resolved, Raised>) {
    r.Err? && r.error.ValueError?
  }

  predicate IsInvalid(r: Result<Resolved, Raised>) {
    r.Err? && r.error.InvalidRecipient?
  }

  /** Some alias raised ValueError, which parse_recipient does not catch. */
  predicate Aborts(rs: seq<Result<Resolved, Raised>>) {
    exists i :: 0 <= i < |rs| && IsValueError(rs[i])
  }

  /** `invalid_recipients`: the argument of each InvalidRecipient, in order. */
  function Failures(rs: seq<Result<Resolved, Raised>>): seq<PyValue> {
    if rs == [] then []
    else
      var last := rs[|rs| - 1];
      Failures(rs[..|rs| - 1]) + if IsInvalid(last) then [last.error.arg] else []
  }

  /** `personIdOps`: the resolved aliases with their signs, in order. */
  function Ops(ts: seq<Token>, rs: seq<Result<Resolved, Raised>>): seq<Op>
    requires |ts| == |rs|
  {
    if rs == [] then []
    else
      var last := rs[|rs| - 1];
      Ops(ts[..|ts| - 1], rs[..|rs| - 1]) +
        if last.Ok? then [Op(ts[|ts| - 1].sign, last.value.ids, last.value.origin)] else []
  }

  /** The person ids, ascending, and their origins, position by position. */
  datatype Resolution = Resolution(ids: seq<int>, origins: seq<Origin>)

  /** The origins of the ids, read from the fold's `origin` map. */
  function OriginsOf(f: Folded, ids: seq<int>): (r: seq<Origin>)
    requires forall k :: 0 <= k < |ids| ==> ids[k] in f.origin
    ensures |r| == |ids| && forall k :: 0 <= k < |ids| ==> r[k] == f.origin[ids[k]]
  {
    seq(|ids|, k requires 0 <= k < |ids| => f.origin[ids[k]])
  }

  /** The ids of the fold, sorted. */
  function SortedIds(f: Folded): (r: seq<int>)
    ensures StrictlySorted(r, IntLess) && Elements(r) == f.ids
  {
    IntLessIsStrictTotalOrder();
    SortedSet(f.ids, IntLess)
  }

  /** The steps of parse_recipient after the aliases are resolved. */
  function Combined(recipient: string, ts: seq<Token>, rs: seq<Result<Resolved, Raised>>): Result<Resolution, Raised>
    requires |ts| == |rs|
  {
    if Aborts(rs) then Err(ValueError)
    else if Failures(rs) != [] then Err(InvalidRecipient(List(Failures(rs))))
    else
      FoldKeys(Ops(ts, rs));
      Finish(recipient, Fold(Ops(ts, rs)))
  }

  /**
   * `res` lists the ids of the fold ascending, each once and at least
   * one, with each id's origin at the same position.
   */
  predicate Lists(res: Resolution, f: Folded) {
    && res.ids != [] && StrictlySorted(res.ids, IntLess)
    && |res.ids| == |res.origins|
    && Elements(res.ids) == f.ids
    && forall k :: 0 <= k < |res.ids| ==> res.ids[k] in f.origin && res.origins[k] == f.origin[res.ids[k]]
  }

  /** The last lines of parse_recipient: sort the ids, refuse an empty result, pair each id with its origin. */
  function Finish(recipient: string, f: Folded): Result<Resolution, Raised>
    requires f.origin.Keys == f.ids
  {
    var ids := SortedIds(f);
    if ids == [] then Err(InvalidRecipient(Str(recipient)))
    else Ok(Resolution(ids, OriginsOf(f, ids)))
  }

  lemma FinishOutcome(recipient: string, f: Folded)
    requires f.origin.Keys == f.ids
    ensures Finish(recipient, f) == Err(InvalidRecipient(Str(recipient))) <==> f.ids == {}
    ensures Finish(recipient, f).Err? <==> f.ids == {}
    ensures Finish(recipient, f).Ok? ==> Lists(Finish(recipient, f).value, f)
  {
    ElementsOfEmpty(SortedIds(f));
  }

  /** What parse_recipient returns, or the exception it raises. */
  function ParseRecipientOf(facts: Facts, recipient: string, current: int): Result<Resolution, Raised> {
    var ts := Tokens(recipient);
    Combined(recipient, ts, Outcomes(facts, ts, current))
  }

  lemma FoldKeys(ops: seq<Op>)
    ensures Fold(ops).origin.Keys == Fold(ops).ids
  {
    FoldSpec(ops, 0);
  }

  lemma {:induction false} FailuresSpec(rs: seq<Result<Resolved, Raised>>, v: PyValue)
    ensures v in Failures(rs) <==> exists i :: 0 <= i < |rs| && IsInvalid(rs[i]) && rs[i].error.arg == v
    ensures Failures(rs) == [] <==> forall i :: 0 <= i < |rs| ==> !IsInvalid(rs[i])
    decreases |rs|
  {
    if rs != [] {
      var init := rs[..|rs| - 1];
      FailuresSpec(init, v);
      assert forall i :: 0 <= i < |init| ==> init[i] == rs[i];
    }
  }

  /** An alias's sign and ids enter `personIdOps` exactly when it resolves. */
  lemma {:induction false} OpsSpec(ts: seq<Token>, rs: seq<Result<Resolved, Raised>>, op: Op)
    requires |ts| == |rs|
    ensures op in Ops(ts, rs) <==>
      exists i :: 0 <= i < |rs| && rs[i] == Ok(Resolved(op.ids, op.origin)) && op.sign == ts[i].sign
    decreases |rs|
  {
    if rs != [] {
      var tinit, rinit := ts[..|ts| - 1], rs[..|rs| - 1];
      OpsSpec(tinit, rinit, op);
      assert forall i :: 0 <= i < |rinit| ==> rinit[i] == rs[i] && tinit[i] == ts[i];
    }
  }

  /** Each failure parse_recipient collects is the name of an alias that failed. */
  lemma FailuresAreNames(facts: Facts, ts: seq<Token>, current: int, v: PyValue)
    requires v in Failures(Outcomes(facts, ts, current))
    ensures exists i :: 0 <= i < |ts| && v == Str(ts[i].name) && IsInvalid(ParseAlias(facts, ts[i].name, current))
  {
    var rs := Outcomes(facts, ts, current);
    FailuresSpec(rs, v);
    var i :| 0 <= i < |rs| && IsInvalid(rs[i]) && rs[i].error.arg == v;
    ParseAliasOutcome(facts, ts[i].name, current);
  }

  /**
   * The failures of parse_recipient, over what parse_alias did with each
   * alias (`rs`): the ValueError of an ambiguous group escapes; otherwise
   * every alias that fails is collected and one InvalidRecipient carries
   * all of them; otherwise an empty result raises
   * `InvalidRecipient(recipient)`.
   */
  lemma CombinedErrors(recipient: string, ts: seq<Token>, rs: seq<Result<Resolved, Raised>>)
    requires |ts| == |rs|
    ensures var r := Combined(recipient, ts, rs);
      && (r == Err(ValueError) <==> Aborts(rs))
      && (r.Err? && r.error.InvalidRecipient? && r.error.arg.List? ==>
            && !Aborts(rs)
            && forall v :: v in r.error.arg.items <==> exists i :: 0 <= i < |rs| && IsInvalid(rs[i]) && rs[i].error.arg == v)
      && (r == Err(InvalidRecipient(Str(recipient))) <==>
            !Aborts(rs) && (forall i :: 0 <= i < |rs| ==> !IsInvalid(rs[i])) && Fold(Ops(ts, rs)).ids == {})
  {
    forall v ensures v in Failures(rs) <==> exists i :: 0 <= i < |rs| && IsInvalid(rs[i]) && rs[i].error.arg == v {
      FailuresSpec(rs, v);
    }
    FailuresSpec(rs, Str(recipient));
    FoldKeys(Ops(ts, rs));
    FinishOutcome(recipient, Fold(Ops(ts, rs)));
  }

  /**
   * What parse_recipient returns: the ids that survive the fold,
   * ascending and each once, never none, with their origins in parallel.
   */
  lemma CombinedResult(recipient: string, ts: seq<Token>, rs: seq<Result<Resolved, Raised>>)
    requires |ts| == |rs|
    ensures Combined(recipient, ts, rs).Ok? ==> Lists(Combined(recipient, ts, rs).value, Fold(Ops(ts, rs)))
  {
    FoldKeys(Ops(ts, rs));
    FinishOutcome(recipient, Fold(Ops(ts, rs)));
  }

  lemma FailedAliasIsListed(facts: Facts, ts: seq<Token>, current: int, i: int)
    requires 0 <= i < |ts| && IsInvalid(ParseAlias(facts, ts[i].name, current))
    ensures Str(ts[i].name) in Failures(Outcomes(facts, ts, current))
  {
    var rs := Outcomes(facts, ts, current);
    assert rs[i] == ParseAlias(facts, ts[i].name, current);
    ParseAliasOutcome(facts, ts[i].name, current);
    FailuresSpec(rs, Str(ts[i].name));
  }

  /**
   * The list parse_recipient raises is `invalid_recipients` of its first
   * loop; AllFailuresAreNames and AllFailedAliasesListed show that it
   * names exactly the aliases that failed.
   */
  lemma ParseRecipientFailures(facts: Facts, recipient: string, current: int)
    ensures var r := ParseRecipientOf(facts, recipient, current);
      r.Err? && r.error.InvalidRecipient? && r.error.arg.List? ==>
        r.error.arg.items == Failures(Outcomes(facts, Tokens(recipient), current))
  {
    var ts := Tokens(recipient);
    ListedFailures(recipient, ts, Outcomes(facts, ts, current));
  }

  /** Each listed failure is the name of an alias parse_alias refused. */
  lemma AllFailuresAreNames(facts: Facts, ts: seq<Token>, current: int)
    ensures forall v :: v in Failures(Outcomes(facts, ts, current)) ==>
      exists i :: 0 <= i < |ts| && v == Str(ts[i].name) && IsInvalid(ParseAlias(facts, ts[i].name, current))
  {
    forall v | v in Failures(Outcomes(facts, ts, current))
      ensures exists i :: 0 <= i < |ts| && v == Str(ts[i].name) && IsInvalid(ParseAlias(facts, ts[i].name, current))
    {
      FailuresAreNames(facts, ts, current, v);
    }
  }

  /** Each alias parse_alias refuses is listed. */
  lemma AllFailedAliasesListed(facts: Facts, ts: seq<Token>, current: int)
    ensures forall i :: 0 <= i < |ts| && IsInvalid(ParseAlias(facts, ts[i].name, current)) ==>
      Str(ts[i].name) in Failures(Outcomes(facts, ts, current))
  {
    forall i | 0 <= i < |ts| && IsInvalid(ParseAlias(facts, ts[i].name, current))
      ensures Str(ts[i].name) in Failures(Outcomes(facts, ts, current))
    {
      FailedAliasIsListed(facts, ts, current, i);
    }
  }

  /** The list in the InvalidRecipient of the first loop is `invalid_recipients` itself. */
  lemma ListedFailures(recipient: string, ts: seq<Token>, rs: seq<Result<Resolved, Raised>>)
    requires |ts| == |rs|
    ensures var r := Combined(recipient, ts, rs);
      r.Err? && r.error.InvalidRecipient? && r.error.arg.List? ==> r.error.arg.items == Failures(rs)
  {
    var r := Combined(recipient, ts, rs);
    if r.Err? && r.error.InvalidRecipient? && r.error.arg.List? && !Aborts(rs) && Failures(rs) == [] {
      FoldKeys(Ops(ts, rs));
      FinishOutcome(recipient, Fold(Ops(ts, rs)));
    }
  }

  // ---------------------------------------------------------------------
  // The loops of parse_recipient

  lemma ScanStep(ts: seq<Token>, rs: seq<Result<Resolved, Raised>>, i: int)
    requires |ts| == |rs| && 0 <= i < |rs|
    ensures Failures(rs[..i + 1]) == Failures(rs[..i]) + if IsInvalid(rs[i]) then [rs[i].error.arg] else []
    ensures Ops(ts[..i + 1], rs[..i + 1]) ==
      Ops(ts[..i], rs[..i]) + if rs[i].Ok? then [Op(ts[i].sign, rs[i].value.ids, rs[i].value.origin)] else []
  {
    assert rs[..i + 1][..i] == rs[..i];
    assert ts[..i + 1][..i] == ts[..i];
  }

  /** The first loop of parse_recipient: resolve every alias, collecting the failures. */
  method ResolveAll(facts: Facts, ts: seq<Token>, current: int) returns (r: Result<seq<Op>, Raised>)
    ensures var rs := Outcomes(facts, ts, current);
      && (Aborts(rs) ==> r == Err(ValueError))
      && (!Aborts(rs) && Failures(rs) != [] ==> r == Err(InvalidRecipient(List(Failures(rs)))))
      && (!Aborts(rs) && Failures(rs) == [] ==> r == Ok(Ops(ts, rs)))
  {
    ghost var rs := Outcomes(facts, ts, current);
    var ops: seq<Op> := [];
    var invalid: seq<PyValue> := [];
    var i := 0;
    while i < |ts|
      invariant 0 <= i <= |ts|
      invariant !Aborts(rs[..i])
      invariant ops == Ops(ts[..i], rs[..i])
      invariant invalid == Failures(rs[..i])
    {
      ScanStep(ts, rs, i);
      var resolved := ParseAlias(facts, ts[i].name, current);
      assert resolved == rs[i];
      AbortsSnoc(rs, i);
      if resolved.Err? && resolved.error.ValueError? {
        return Err(ValueError);
      } else if resolved.Err? {
        invalid := invalid + [resolved.error.arg];
      } else {
        ops := ops + [Op(ts[i].sign, resolved.value.ids, resolved.value.origin)];
      }
      i := i + 1;
    }
    assert rs[..i] == rs && ts[..i] == ts;
    if invalid != [] {
      return Err(InvalidRecipient(List(invalid)));
    }
    return Ok(ops);
  }

  lemma AbortsSnoc(rs: seq<Result<Resolved, Raised>>, i: int)
    requires 0 <= i < |rs|
    ensures Aborts(rs[..i + 1]) <==> Aborts(rs[..i]) || IsValueError(rs[i])
    ensures IsValueError(rs[i]) ==> Aborts(rs)
  {
    assert rs[..i + 1][i] == rs[i];
    assert forall k :: 0 <= k < i ==> rs[..i + 1][k] == rs[..i][k];
  }

  lemma FoldStep(ops: seq<Op>, k: int)
    requires 0 <= k < |ops|
    ensures Fold(ops[..k + 1]) == Apply(Fold(ops[..k]), ops[k])
  {
    assert ops[..k + 1][..k] == ops[..k];
  }

  /** `for p in personIds: origin[p] = source` */
  method SetOrigins(origin: map<int, Origin>, op: Op) returns (r: map<int, Origin>)
    ensures r == origin + Tagged(op)
  {
    r := origin;
    assert TagAll(op.ids[..0], op.origin) == map[];
    for j := 0 to |op.ids|
      invariant r == origin + TagAll(op.ids[..j], op.origin)
    {
      assert op.ids[..j + 1] == op.ids[..j] + [op.ids[j]];
      TagAllSnoc(origin, op.ids[..j], op.ids[j], op.origin);
      r := r[op.ids[j] := op.origin];
    }
    assert op.ids[..|op.ids|] == op.ids;
  }

  /** `for p in personIds: origin.pop(p, None)` */
  method PopOrigins(origin: map<int, Origin>, op: Op) returns (r: map<int, Origin>)
    ensures r == origin - Elements(op.ids)
  {
    r := origin;
    for j := 0 to |op.ids|
      invariant r == origin - Elements(op.ids[..j])
    {
      assert op.ids[..j + 1] == op.ids[..j] + [op.ids[j]];
      assert Elements(op.ids[..j + 1]) == Elements(op.ids[..j]) + {op.ids[j]};
      r := r - {op.ids[j]};
    }
    assert op.ids[..|op.ids|] == op.ids;
  }

  /** The second loop of parse_recipient: the fold. */
  method FoldAll(ops: seq<Op>) returns (ids: set<int>, origin: map<int, Origin>)
    ensures Folded(ids, origin) == Fold(ops)
  {
    ids, origin := {}, map[];
    for k := 0 to |ops|
      invariant Folded(ids, origin) == Fold(ops[..k])
    {
      FoldStep(ops, k);
      var op := ops[k];
      if op.sign == '+' {
        ids := ids + Elements(op.ids);
        origin := SetOrigins(origin, op);
      } else {
        ids := ids - Elements(op.ids);
        origin := PopOrigins(origin, op);
      }
    }
    assert ops[..|ops|] == ops;
  }

  /** parse_recipient */
  method ParseRecipient(facts: Facts, recipient: string, current: int) returns (r: Result<Resolution, Raised>)
    ensures r == ParseRecipientOf(facts, recipient, current)
  {
    var ts := Tokens(recipient);
    var resolved := ResolveAll(facts, ts, current);
    if resolved.Err? {
      return Err(resolved.error);
    }
    var ids, origin := FoldAll(resolved.value);
    var f := Folded(ids, origin);
    var sorted := SortedIds(f);
    if sorted == [] {
      return Err(InvalidRecipient(Str(recipient)));
    }
    FoldKeys(resolved.value);
    return Ok(Resolution(sorted, OriginsOf(f, sorted)));
  }

  // ---------------------------------------------------------------------
  // translate_recipient

  /** `str.upper` for one character: exact for ASCII and for à to þ; other characters are kept. */
  function UpperChar(c: char): char {
    if 'a' <= c <= 'z' || (0xE0 <= c as int <= 0xFE && c as int != 0xF7) then (c as int - 32) as char else c
  }

  /** `name.replace('$', 'S').upper()`, the form translate_recipient resolves. */
  function Normalized(name: string): (r: string) {
    seq(|name|, i requires 0 <= i < |name| => UpperChar(if name[i] == '$' then 'S' else name[i]))
  }

  /**
   * A normalised name has no `$` and no lower-case ASCII letter, keeps
   * its length, and normalising it again changes nothing.
   */
  lemma NormalizedSpec(name: string)
    ensures |Normalized(name)| == |name|
    ensures forall i :: 0 <= i < |name| ==> Normalized(name)[i] != '$' && !('a' <= Normalized(name)[i] <= 'z')
    ensures forall i :: 0 <= i < |name| && 'A' <= name[i] <= 'Z' ==> Normalized(name)[i] == name[i]
    ensures forall i :: 0 <= i < |name| && 'a' <= name[i] <= 'z' ==> Normalized(name)[i] as int == name[i] as int - 32
    ensures Normalized(Normalized(name)) == Normalized(name)
  {
  }

  /** "KA$$" is KASS and "gFORM14" is GFORM14. */
  lemma NormalizedExamples()
    ensures Normalized("KA$$") == "KASS"
    ensures Normalized("gFORM14") == "GFORM14"
  {
    assert Normalized("KA$$") == "KASS" by {
      var r := Normalized("KA$$");
      assert r[0] == 'K' && r[1] == 'A' && r[2] == 'S' && r[3] == 'S';
    }
    assert Normalized("gFORM14") == "GFORM14" by {
      var r := Normalized("gFORM14");
      assert r[0] == 'G' && r[1] == 'F' && r[2] == 'O' && r[3] == 'R' && r[4] == 'M' && r[5] == '1' && r[6] == '4';
    }
  }

  /** translate_recipient up to the address lookup: the ids and origins of the normalised name. */
  method TranslateRecipient(facts: Facts, year: int, name: string) returns (r: Result<Resolution, Raised>)
    ensures r == ParseRecipientOf(facts, Normalized(name), year)
    ensures r.Ok? ==> |r.value.ids| == |r.value.origins|
  {
    var ts := Tokens(Normalized(name));
    CombinedResult(Normalized(name), ts, Outcomes(facts, ts, year));
    r := ParseRecipient(facts, Normalized(name), year);
  }
}
