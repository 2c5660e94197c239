/** The preference encoder `adjust_values`: a ranking string such as `a>b=c>d` is split into
    rank groups on `>`, each group into tied names on `=`, and every roster candidate named in
    group `i` of `num_ranks` groups is given the coefficient `sqrt(num_ranks - i)`.

    Every coefficient the encoder produces is zero or the square root of a natural number, so
    this model keeps the SQUARED coefficient, a `nat`: `num_ranks - i` for a named candidate and
    0 for one never named. */
module Preference {
  import opened Wrappers
  import opened Text

  type Name = string

  /** A parsed ranking: the rank groups in order of preference, each holding its tied names. */
  type Ranking = seq<seq<Name>>

  /** Squared coefficient of every roster candidate. */
  type CoefficientMap = map<Name, nat>

  /** The rank groups: spaces removed, then split on `>`. */
  function RankGroups(preference: string): seq<string>
  {
    SplitOn(RemoveSpaces(preference), '>')
  }

  /** The tied names of one rank group. */
  function TiedNames(group: string): seq<Name>
  {
    SplitOn(group, '=')
  }

  /** A ranking string as the encoder reads it: its rank groups, each split into tied names. */
  function ParseRanking(preference: string): Ranking
  {
    var groups := RankGroups(preference);
    seq(|groups|, i requires 0 <= i < |groups| => TiedNames(groups[i]))
  }

  /** Every `>` opens a new group, so the number of ranks is one more than the number of `>`,
      empty groups included; and no parsed name holds a space or either separator. */
  lemma ParseRankingShape(preference: string)
    ensures |ParseRanking(preference)| == multiset(preference)['>'] + 1
    ensures var r := ParseRanking(preference);
      forall i, j :: 0 <= i < |r| && 0 <= j < |r[i]| ==>
        ' ' !in r[i][j] && '>' !in r[i][j] && '=' !in r[i][j]
  {
    var spaceless := RemoveSpaces(preference);
    var groups := SplitOn(spaceless, '>');
    assert multiset(spaceless)['>'] == multiset(preference)['>'];
    SplitOnCount(spaceless, '>');
    SplitOnAvoids(spaceless, '>', ' ');
    var r := ParseRanking(preference);
    forall i | 0 <= i < |r| ensures forall j :: 0 <= j < |r[i]| ==> ' ' !in r[i][j] && '>' !in r[i][j] {
      SplitOnAvoids(groups[i], '=', ' ');
      SplitOnAvoids(groups[i], '=', '>');
    }
  }

  /** Partner of the parse: joining each group's names with `=` and the groups with `>` gives
      back the ranking string without its spaces. */
  lemma ParseRankingJoin(preference: string)
    ensures var r := ParseRanking(preference);
      Join(seq(|r|, i requires 0 <= i < |r| => Join(r[i], '=')), '>') == RemoveSpaces(preference)
  {
    var groups := RankGroups(preference);
    var r := ParseRanking(preference);
    var joined := seq(|r|, i requires 0 <= i < |r| => Join(r[i], '='));
    forall i | 0 <= i < |r| ensures joined[i] == groups[i] {
      JoinSplitOn(groups[i], '=');
    }
    assert joined == groups;
    JoinSplitOn(RemoveSpaces(preference), '>');
  }

  /** Whether a name occurs anywhere in the ranking. */
  predicate Mentions(r: Ranking, c: Name)
  {
    exists l :: 0 <= l < |r| && c in r[l]
  }

  /** The last group that names `c`, if any: later assignments overwrite earlier ones. */
  function LastGroup(r: Ranking, c: Name): (g: Option<nat>)
    ensures g.None? <==> !Mentions(r, c)
    ensures g.Some? ==> g.value < |r| && c in r[g.value]
    ensures g.Some? ==> forall l :: g.value < l < |r| ==> c !in r[l]
    decreases |r|
  {
    if |r| == 0 then None
    else if c in r[|r| - 1] then Some(|r| - 1)
    else
      var prefix := r[..|r| - 1];
      assert forall l :: 0 <= l < |prefix| ==> prefix[l] == r[l];
      LastGroup(prefix, c)
  }

  /** Squared coefficient of `c` after the groups of `r` were applied in order, when the whole
      ranking has `numRanks` groups (`r` may be a prefix of it). */
  function Score(r: Ranking, numRanks: nat, c: Name): nat
    requires |r| <= numRanks
  {
    match LastGroup(r, c)
    case None => 0
    case Some(i) => numRanks - i
  }

  /** The coefficient map for a roster after the groups of `r` were applied, out of `numRanks`. */
  function ScoresAfter(r: Ranking, numRanks: nat, roster: seq<Name>): (m: CoefficientMap)
    requires |r| <= numRanks
    ensures m.Keys == set c | c in roster
  {
    map c | c in roster :: Score(r, numRanks, c)
  }

  /** Reference definition of `adjust_values` on a parsed ranking: one entry per roster
      candidate, holding the squared coefficient of the last group naming it, or 0. */
  function Coefficients(r: Ranking, roster: seq<Name>): (m: CoefficientMap)
    ensures m.Keys == set c | c in roster
  {
    ScoresAfter(r, |r|, roster)
  }

  /** Applying group `i` on top of the first `i` groups overwrites exactly the roster names
      that group holds and keeps every other entry. */
  lemma ScoresAfterStep(r: Ranking, i: nat, numRanks: nat, roster: seq<Name>, before: CoefficientMap, after: CoefficientMap)
    requires i < |r| <= numRanks
    requires before == ScoresAfter(r[..i], numRanks, roster)
    requires after.Keys == before.Keys
    requires forall c | c in after :: after[c] == if c in r[i] then numRanks - i else before[c]
    ensures after == ScoresAfter(r[..i + 1], numRanks, roster)
  {
    assert r[..i + 1][..i] == r[..i];
    assert r[..i + 1][i] == r[i];
    var expected := ScoresAfter(r[..i + 1], numRanks, roster);
    forall c | c in after ensures after[c] == expected[c] {
      assert LastGroup(r[..i + 1], c) == if c in r[i] then Some(i) else LastGroup(r[..i], c);
    }
    MapsAgree(after, expected);
  }

  /** Group `i` of the parsed ranking is the `=`-split of the `i`-th `>`-group. */
  lemma ParsedGroup(preference: string, i: nat)
    requires i < |RankGroups(preference)|
    ensures |ParseRanking(preference)| == |RankGroups(preference)|
    ensures ParseRanking(preference)[i] == TiedNames(RankGroups(preference)[i])
  {
  }

  /** Two maps with the same keys and the same value at every key are equal. */
  lemma MapsAgree(a: CoefficientMap, b: CoefficientMap)
    requires a.Keys == b.Keys
    requires forall c | c in a :: a[c] == b[c]
    ensures a == b
  {
  }

  /** The inner loop of `adjust_values`: every tied name already in the map gets `weight`;
      names outside the map are skipped, so no key is ever added. */
  method AssignTied(names: CoefficientMap, tied: seq<Name>, weight: nat) returns (r: CoefficientMap)
    ensures r.Keys == names.Keys
    ensures forall c | c in r :: r[c] == if c in tied then weight else names[c]
  {
    r := names;
    for j := 0 to |tied|
      invariant r.Keys == names.Keys
      invariant forall c | c in r :: r[c] == if c in tied[..j] then weight else names[c]
    {
      var k := tied[j];
      assert tied[..j + 1] == tied[..j] + [k];
      if k in r {
        r := r[k := weight];
      }
    }
    assert tied[..|tied|] == tied;
  }

  /** One pass of the outer loop of `adjust_values`: a group holding `=` is split into its tied
      names, each assigned when it is a key; a group without `=` is looked up as one name. Both
      branches overwrite exactly the keys among the group's tied names. */
  method ApplyGroup(names: CoefficientMap, candidate: string, weight: nat) returns (r: CoefficientMap)
    ensures r.Keys == names.Keys
    ensures forall c | c in r :: r[c] == if c in TiedNames(candidate) then weight else names[c]
  {
    if '=' in candidate {
      var tiedCandidates := SplitOn(candidate, '=');
      r := AssignTied(names, tiedCandidates, weight);
    } else {
      SplitOnWithoutSeparator(candidate, '=');
      r := names;
      if candidate in names {
        r := names[candidate := weight];
      }
    }
  }

  /** `adjust_values`, step by step as the script runs it: start every roster candidate at 0,
      then walk the groups in order and overwrite the entry of every roster name found. The
      result agrees with the reference definition. */
  method AdjustValues(preference: string, candidates: seq<Name>) returns (names: CoefficientMap)
    ensures names.Keys == set c | c in candidates
    ensures names == Coefficients(ParseRanking(preference), candidates)
  {
    names := map c | c in candidates :: 0;
    var ranking := RankGroups(preference);
    ghost var parsed := ParseRanking(preference);
    var numRanks := |ranking|;
    assert |parsed| == numRanks by { ParsedGroup(preference, 0); }
    MapsAgree(names, ScoresAfter(parsed[..0], numRanks, candidates));
    for i := 0 to |ranking|
      invariant names == ScoresAfter(parsed[..i], numRanks, candidates)
    {
      ghost var before := names;
      names := ApplyGroup(names, ranking[i], numRanks - i);
      ParsedGroup(preference, i);
      ScoresAfterStep(parsed, i, numRanks, candidates, before, names);
    }
    assert parsed[..|ranking|] == parsed;
  }

  /** Squared coefficients listed in roster order, as `[voter[c] for c in candidates]`. */
  function InRosterOrder(m: CoefficientMap, roster: seq<Name>): (v: seq<nat>)
    requires forall c | c in roster :: c in m
    ensures |v| == |roster|
    ensures forall j :: 0 <= j < |roster| ==> v[j] == m[roster[j]]
  {
    seq(|roster|, j requires 0 <= j < |roster| => m[roster[j]])
  }

  /** A roster candidate whose last mention is in group `i` gets `num_ranks - i`, a value
      between 1 and `num_ranks`. */
  lemma ScoringRule(r: Ranking, roster: seq<Name>, c: Name, i: nat)
    requires c in roster
    requires i < |r| && c in r[i]
    requires forall l :: i < l < |r| ==> c !in r[l]
    ensures Coefficients(r, roster)[c] == |r| - i
    ensures 1 <= Coefficients(r, roster)[c] <= |r|
  {
    assert Mentions(r, c);
  }

  /** A roster candidate has a non-zero coefficient exactly when the ranking names it. */
  lemma PositiveIffMentioned(r: Ranking, roster: seq<Name>, c: Name)
    requires c in roster
    ensures Coefficients(r, roster)[c] > 0 <==> Mentions(r, c)
    ensures !Mentions(r, c) ==> Coefficients(r, roster)[c] == 0
  {
  }

  /** Tied candidates whose last mention is the same group receive the same coefficient. */
  lemma TiesShareCoefficient(r: Ranking, roster: seq<Name>, a: Name, b: Name, i: nat)
    requires a in roster && b in roster
    requires i < |r| && a in r[i] && b in r[i]
    requires forall l :: i < l < |r| ==> a !in r[l] && b !in r[l]
    ensures Coefficients(r, roster)[a] == Coefficients(r, roster)[b]
  {
    ScoringRule(r, roster, a, i);
    ScoringRule(r, roster, b, i);
  }

  /** A candidate last mentioned in an earlier group scores strictly higher than one last
      mentioned in a later group. */
  lemma EarlierGroupScoresHigher(r: Ranking, roster: seq<Name>, a: Name, i: nat, b: Name, j: nat)
    requires a in roster && b in roster
    requires i < j < |r|
    requires a in r[i] && forall l :: i < l < |r| ==> a !in r[l]
    requires b in r[j] && forall l :: j < l < |r| ==> b !in r[l]
    ensures Coefficients(r, roster)[a] > Coefficients(r, roster)[b]
  {
    ScoringRule(r, roster, a, i);
    ScoringRule(r, roster, b, j);
  }

  /** Two rankings of the same length that name `c` in the same groups give `c` the same last group. */
  lemma {:induction false} LastGroupRespectsMembership(r: Ranking, r': Ranking, c: Name)
    requires |r| == |r'|
    requires forall l :: 0 <= l < |r| ==> (c in r[l] <==> c in r'[l])
    ensures LastGroup(r, c) == LastGroup(r', c)
    decreases |r|
  {
    if |r| > 0 && c !in r[|r| - 1] {
      LastGroupRespectsMembership(r[..|r| - 1], r'[..|r| - 1], c);
    }
  }

  /** A name outside the roster, added to any group, neither adds a key nor changes an entry. */
  lemma UnknownNameIgnored(r: Ranking, roster: seq<Name>, i: nat, x: Name)
    requires i < |r|
    requires x !in roster
    ensures Coefficients(r[i := r[i] + [x]], roster) == Coefficients(r, roster)
  {
    var r' := r[i := r[i] + [x]];
    var m, m' := Coefficients(r, roster), Coefficients(r', roster);
    forall c | c in m ensures m'[c] == m[c] {
      LastGroupRespectsMembership(r, r', c);
    }
    MapsAgree(m', m);
  }

  /** A ranking that names no roster candidate leaves every coefficient at 0. */
  lemma OnlyUnknownNamesAllZero(r: Ranking, roster: seq<Name>)
    requires forall l, j :: 0 <= l < |r| && 0 <= j < |r[l]| ==> r[l][j] !in roster
    ensures forall c | c in roster :: Coefficients(r, roster)[c] == 0
  {
    forall c, l | c in roster && 0 <= l < |r| ensures c !in r[l] {
      assert forall j :: 0 <= j < |r[l]| ==> r[l][j] != c;
    }
  }

  /** The empty ranking is one empty group, so it scores every candidate 0 unless the empty
      string is itself a roster name. */
  lemma EmptyPreferenceAllZero(roster: seq<Name>)
    requires "" !in roster
    ensures ParseRanking("") == [[""]]
    ensures forall c | c in roster :: Coefficients(ParseRanking(""), roster)[c] == 0
  {
    assert RemoveSpaces("") == "";
    assert SplitOn("", '>') == [""];
    OnlyUnknownNamesAllZero(ParseRanking(""), roster);
  }

  /** A ranking string written without spaces parses into the groups it was joined from. */
  lemma ParseJoined(groups: seq<seq<Name>>, preference: string)
    requires |groups| >= 1 && forall i :: 0 <= i < |groups| ==> |groups[i]| >= 1
    requires forall i, j :: 0 <= i < |groups| && 0 <= j < |groups[i]| ==>
      ' ' !in groups[i][j] && '>' !in groups[i][j] && '=' !in groups[i][j]
    requires preference == Join(seq(|groups|, i requires 0 <= i < |groups| => Join(groups[i], '=')), '>')
    ensures ParseRanking(preference) == groups
  {
    var joined := seq(|groups|, i requires 0 <= i < |groups| => Join(groups[i], '='));
    forall i | 0 <= i < |groups| ensures ' ' !in joined[i] && '>' !in joined[i] && TiedNames(joined[i]) == groups[i] {
      JoinAvoids(groups[i], '=', ' ');
      JoinAvoids(groups[i], '=', '>');
      SplitOnJoin(groups[i], '=');
    }
    JoinAvoids(joined, '>', ' ');
    RemoveSpacesNoSpace(preference);
    SplitOnJoin(joined, '>');
  }

  /** Names that can appear in a ranking: no spaces and no separators. */
  predicate PlainName(n: Name)
  {
    ' ' !in n && '>' !in n && '=' !in n
  }

  /** `a=b>c>d` over `[a, b, c, d]`: the tied pair shares the top score 3, then 2 and 1. */
  lemma TiedRankingExample(a: Name, b: Name, c: Name, d: Name)
    requires PlainName(a) && PlainName(b) && PlainName(c) && PlainName(d)
    requires a != c && a != d && b != c && b != d && c != d
    ensures var m := Coefficients(ParseRanking(a + "=" + b + ">" + c + ">" + d), [a, b, c, d]);
      a in m && b in m && c in m && d in m && m[a] == 3 && m[b] == 3 && m[c] == 2 && m[d] == 1
  {
    ParseTiedTriple(a, b, c, d);
    TiedGroupsScores(a, b, c, d);
  }

  /** `a=b>c>d` parses into the groups `[[a, b], [c], [d]]`. */
  lemma ParseTiedTriple(a: Name, b: Name, c: Name, d: Name)
    requires PlainName(a) && PlainName(b) && PlainName(c) && PlainName(d)
    ensures ParseRanking(a + "=" + b + ">" + c + ">" + d) == [[a, b], [c], [d]]
  {
    var groups := [[a, b], [c], [d]];
    var joined := seq(|groups|, i requires 0 <= i < |groups| => Join(groups[i], '='));
    assert [a, b][1..] == [b];
    assert Join([a, b], '=') == a + "=" + b;
    assert joined == [a + "=" + b, c, d];
    assert joined[1..] == [c, d] && joined[1..][1..] == [d];
    assert Join([c, d], '>') == c + ">" + d;
    assert Join(joined, '>') == (a + "=" + b) + ">" + (c + ">" + d);
    assert (a + "=" + b) + ">" + (c + ">" + d) == a + "=" + b + ">" + c + ">" + d;
    ParseJoined(groups, a + "=" + b + ">" + c + ">" + d);
  }

  /** Scores of the parsed groups `[[a, b], [c], [d]]`. */
  lemma TiedGroupsScores(a: Name, b: Name, c: Name, d: Name)
    requires a != c && a != d && b != c && b != d && c != d
    ensures var m := Coefficients([[a, b], [c], [d]], [a, b, c, d]);
      m[a] == 3 && m[b] == 3 && m[c] == 2 && m[d] == 1
  {
    var groups := [[a, b], [c], [d]];
    var roster := [a, b, c, d];
    assert a in groups[0] && b in groups[0];
    assert forall l :: 0 < l < 3 ==> a !in groups[l] && b !in groups[l];
    ScoringRule(groups, roster, a, 0);
    ScoringRule(groups, roster, b, 0);
    ScoringRule(groups, roster, c, 1);
    ScoringRule(groups, roster, d, 2);
  }

  /** `a>b` over `[a, b, c, d]`: the two named candidates score 2 and 1, the rest 0. */
  lemma PartialRankingExample(a: Name, b: Name, c: Name, d: Name)
    requires PlainName(a) && PlainName(b)
    requires a != b && a != c && a != d && b != c && b != d
    ensures var m := Coefficients(ParseRanking(a + ">" + b), [a, b, c, d]);
      a in m && b in m && c in m && d in m && m[a] == 2 && m[b] == 1 && m[c] == 0 && m[d] == 0
  {
    ParsePair(a, b);
    PartialGroupsScores(a, b, c, d);
  }

  /** `a>b` parses into the groups `[[a], [b]]`. */
  lemma ParsePair(a: Name, b: Name)
    requires PlainName(a) && PlainName(b)
    ensures ParseRanking(a + ">" + b) == [[a], [b]]
  {
    var groups := [[a], [b]];
    var joined := seq(|groups|, i requires 0 <= i < |groups| => Join(groups[i], '='));
    assert joined == [a, b];
    assert joined[1..] == [b];
    assert Join(joined, '>') == a + ">" + b;
    ParseJoined(groups, a + ">" + b);
  }

  /** Scores of the parsed groups `[[a], [b]]`. */
  lemma PartialGroupsScores(a: Name, b: Name, c: Name, d: Name)
    requires a != b && a != c && a != d && b != c && b != d
    ensures var m := Coefficients([[a], [b]], [a, b, c, d]);
      m[a] == 2 && m[b] == 1 && m[c] == 0 && m[d] == 0
  {
    var groups := [[a], [b]];
    var roster := [a, b, c, d];
    assert forall l :: 0 <= l < 2 ==> c !in groups[l] && d !in groups[l];
    ScoringRule(groups, roster, a, 0);
    ScoringRule(groups, roster, b, 1);
    PositiveIffMentioned(groups, roster, c);
    PositiveIffMentioned(groups, roster, d);
  }
}
