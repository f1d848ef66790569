/**
 Battle-royale team topology (packages/plugin-battle-royale/src/team-topology.ts): the
 round-robin assignment and the policy it must satisfy.
 */
module TeamTopology {
  import opened Wrappers
  import opened Sorting
  import opened SpawnLayout
  import Rng

  datatype MatchMode = Solo | Duo | Squad

  datatype Issue = InsufficientParticipants | MixedTeams | WrongTeamCount | TeamOverCapacity | UnbalancedTeams

  datatype TopologySource = Authored | Derived

  datatype Topology = Topology(source: TopologySource, teamIds: seq<string>, issues: seq<Issue>)

  function TeamCapacity(mode: MatchMode): nat
  {
    match mode
    case Solo => 1
    case Duo => 2
    case Squad => 4
  }

  // ----- labels -----

  /** The white space that `String.prototype.trim` removes. */
  predicate IsSpace(c: char)
  {
    || '\U{0009}' <= c <= '\U{000D}' || c == ' ' || c == '\U{00A0}' || c == '\U{1680}'
    || '\U{2000}' <= c <= '\U{200A}' || c == '\U{2028}' || c == '\U{2029}' || c == '\U{202F}'
    || c == '\U{205F}' || c == '\U{3000}' || c == '\U{FEFF}'
  }

  function TrimStart(s: string): string
  {
    if s != "" && IsSpace(s[0]) then TrimStart(s[1..]) else s
  }

  function TrimEnd(s: string): string
  {
    if s != "" && IsSpace(s[|s| - 1]) then TrimEnd(s[..|s| - 1]) else s
  }

  /** Equal to the legacy label but for case. */
  predicate IsSolo(s: string)
  {
    |s| == 4 && s[0] in "sS" && s[1] in "oO" && s[2] in "lL" && s[3] in "oO"
  }

  function NormalizedTeam(value: Option<string>): Option<string>
  {
    if value.None? then None
    else
      var normalized := TrimEnd(TrimStart(value.value));
      if normalized == "" || IsSolo(normalized) then None else Some(normalized)
  }

  function Digit(d: nat): char
    requires d < 10
  {
    "0123456789"[d]
  }

  function Decimal(n: nat): (s: string)
    ensures |s| > 0 && s[|s| - 1] in "0123456789"
  {
    if n < 10 then [Digit(n)] else Decimal(n / 10) + [Digit(n % 10)]
  }

  function DigitValue(c: char): nat
  {
    if '0' <= c <= '9' then (c - '0') as nat else 0
  }

  function ReadDecimal(s: string): nat
  {
    if s == "" then 0 else ReadDecimal(s[..|s| - 1]) * 10 + DigitValue(s[|s| - 1])
  }

  lemma {:induction false} DecimalReadsBack(n: nat)
    ensures ReadDecimal(Decimal(n)) == n
  {
    if n < 10 {
      assert Decimal(n)[..0] == "";
      assert ReadDecimal("") == 0;
    } else {
      DecimalReadsBack(n / 10);
      var s := Decimal(n);
      assert s[..|s| - 1] == Decimal(n / 10) && s[|s| - 1] == Digit(n % 10);
    }
  }

  /** The name of the team with zero-based index k. */
  function TeamName(k: nat): string
  {
    "team-" + Decimal(k + 1)
  }

  lemma SamePrefix(prefix: string, s: string, t: string)
    requires prefix + s == prefix + t
    ensures s == t
  {
    assert (prefix + s)[|prefix|..] == s && (prefix + t)[|prefix|..] == t;
  }

  /** A prefix and a number tell the number. */
  lemma NumbersAreApart(prefix: string, j: nat, k: nat)
    ensures prefix + Decimal(j) == prefix + Decimal(k) <==> j == k
  {
    if prefix + Decimal(j) == prefix + Decimal(k) {
      SamePrefix(prefix, Decimal(j), Decimal(k));
      DecimalReadsBack(j);
      DecimalReadsBack(k);
    }
  }

  lemma NamesDiffer(j: nat, k: nat)
    requires TeamName(j) == TeamName(k)
    ensures j == k
  {
    NumbersAreApart("team-", j + 1, k + 1);
  }

  lemma NameIsNormal(k: nat)
    ensures NormalizedTeam(Some(TeamName(k))) == Some(TeamName(k))
  {
    var s := TeamName(k);
    assert s[0] == 't';
    assert s[|s| - 1] == Decimal(k + 1)[|Decimal(k + 1)| - 1];
    assert TrimStart(s) == s;
    assert TrimEnd(s) == s;
  }

  // ----- the derived assignment -----

  function CeilDiv(n: nat, d: nat): nat
    requires d > 0
  {
    (n + d - 1) / d
  }

  function MaxNat(a: nat, b: nat): nat { if a >= b then a else b }
  function MinNat(a: nat, b: nat): nat { if a <= b then a else b }

  function ExpectedTeamCount(mode: MatchMode, n: nat): nat
  {
    MinNat(n, MaxNat(2, CeilDiv(n, TeamCapacity(mode))))
  }

  /** How many players a team of the mode holds. */
  function Seats(mode: MatchMode, teams: nat): nat
  {
    if mode == Solo then teams else if mode == Duo then teams + teams else teams + teams + teams + teams
  }

  lemma SeatsIsProduct(mode: MatchMode, teams: nat)
    ensures Seats(mode, teams) == teams * TeamCapacity(mode)
  {
  }

  lemma CeilIsLeast(n: nat, d: nat, q: nat)
    requires d > 0
    ensures q * d >= n <==> q >= CeilDiv(n, d)
  {
    var c, r := CeilDiv(n, d), (n + d - 1) % d;
    assert c * d + r == n + d - 1;
    if q >= c {
      ProductOrder(c, q, d);
    } else {
      ProductOrder(q + 1, c, d);
      assert (q + 1) * d == q * d + d;
    }
  }

  lemma ProductOrder(a: nat, b: nat, d: nat)
    requires a <= b
    ensures a * d <= b * d
  {
  }

  /**
   The expected number of teams is the least that seats everybody, two at least, and never more than
   there are players.
   */
  lemma ExpectedCountIsLeast(mode: MatchMode, n: nat, teams: nat)
    ensures teams >= 2 && Seats(mode, teams) >= n ==> teams >= ExpectedTeamCount(mode, n)
    ensures ExpectedTeamCount(mode, n) <= n && Seats(mode, ExpectedTeamCount(mode, n)) >= n
    ensures n >= 2 ==> ExpectedTeamCount(mode, n) >= 2
  {
    var capacity, expected := TeamCapacity(mode), ExpectedTeamCount(mode, n);
    SeatsIsProduct(mode, teams);
    SeatsIsProduct(mode, expected);
    CeilIsLeast(n, capacity, teams);
    CeilIsLeast(n, capacity, expected);
  }

  function DerivedTeamIds(mode: MatchMode, n: nat): seq<string>
  {
    if mode == Solo then seq(n, i requires 0 <= i < n => "solo-" + Decimal(i + 1))
    else RoundRobin(n, ExpectedTeamCount(mode, n))
  }

  function RoundRobin(n: nat, teams: nat): seq<string>
    requires n > 0 ==> teams > 0
  {
    Called(Turns(n, teams))
  }

  function Turns(n: nat, teams: nat): seq<nat>
    requires n > 0 ==> teams > 0
  {
    seq(n, i requires 0 <= i < n => i % teams)
  }

  /** Team names from zero-based turns. */
  function Called(turns: seq<nat>): seq<string>
  {
    seq(|turns|, i requires 0 <= i < |turns| => TeamName(turns[i]))
  }

  lemma SoloName(n: nat, i: nat)
    requires i < n
    ensures DerivedTeamIds(Solo, n)[i] == "solo-" + Decimal(i + 1)
  {
  }

  lemma NumberedApart(ids: seq<string>, prefix: string, i: nat, j: nat)
    requires i < |ids| && j < |ids|
    requires ids[i] == prefix + Decimal(i + 1) && ids[j] == prefix + Decimal(j + 1)
    ensures ids[i] == ids[j] <==> i == j
  {
    NumbersAreApart(prefix, i + 1, j + 1);
  }

  lemma SoloCount(n: nat)
    ensures |DerivedTeamIds(Solo, n)| == n
  {
  }

  /** In solo mode everybody has a team of their own. */
  lemma SoloTeamsAreApart(n: nat, i: nat, j: nat)
    requires i < n && j < n
    ensures |DerivedTeamIds(Solo, n)| == n
    ensures DerivedTeamIds(Solo, n)[i] == DerivedTeamIds(Solo, n)[j] <==> i == j
  {
    SoloCount(n);
    SoloName(n, i);
    SoloName(n, j);
    NumberedApart(DerivedTeamIds(Solo, n), "solo-", i, j);
  }

  // ----- the policy -----

  function SizeOf(labels: seq<string>, team: string): nat
  {
    multiset(labels)[team]
  }

  ghost predicate OverCapacity(labels: seq<string>, capacity: nat)
  {
    exists t :: t in labels && SizeOf(labels, t) > capacity
  }

  ghost predicate Unbalanced(labels: seq<string>)
  {
    exists t, u :: t in labels && u in labels && SizeOf(labels, t) > SizeOf(labels, u) + 1
  }

  ghost function TeamsIn(labels: seq<string>): set<string>
  {
    set t | t in labels
  }

  /** The issues of fully authored labels: wrong count, then capacity, then balance. */
  ghost function PolicyIssues(mode: MatchMode, labels: seq<string>): seq<Issue>
  {
    (if |TeamsIn(labels)| != ExpectedTeamCount(mode, |labels|) then [WrongTeamCount] else [])
    + (if OverCapacity(labels, TeamCapacity(mode)) then [TeamOverCapacity] else [])
    + (if Unbalanced(labels) then [UnbalancedTeams] else [])
  }

  function Labels(teams: seq<Option<string>>): seq<Option<string>>
  {
    seq(|teams|, i requires 0 <= i < |teams| => NormalizedTeam(teams[i]))
  }

  ghost predicate NoneAuthored(authored: seq<Option<string>>)
  {
    forall i :: 0 <= i < |authored| ==> authored[i].None?
  }

  ghost predicate AllAuthored(authored: seq<Option<string>>)
  {
    forall i :: 0 <= i < |authored| ==> authored[i].Some?
  }

  function Unwrap(authored: seq<Option<string>>): seq<string>
    requires forall i :: 0 <= i < |authored| ==> authored[i].Some?
  {
    seq(|authored|, i requires 0 <= i < |authored| => authored[i].value)
  }

  /** Keys in first-seen order with their counts: the source's `Map`. */
  ghost predicate Counted(labels: seq<string>, order: seq<string>, counts: map<string, nat>)
  {
    && counts.Keys == TeamsIn(labels)
    && (forall t :: t in order <==> t in labels)
    && (forall i, j :: 0 <= i < j < |order| ==> order[i] != order[j])
    && forall t :: t in counts ==> counts[t] == SizeOf(labels, t)
  }

  method CountTeams(labels: seq<string>) returns (order: seq<string>, counts: map<string, nat>)
    ensures Counted(labels, order, counts)
  {
    order, counts := [], map[];
    var i := 0;
    while i < |labels|
      invariant 0 <= i <= |labels|
      invariant Counted(labels[..i], order, counts)
    {
      var t := labels[i];
      assert labels[..i + 1] == labels[..i] + [t];
      if t !in counts {
        order := order + [t];
      }
      counts := counts[t := (if t in counts then counts[t] else 0) + 1];
      i := i + 1;
    }
    assert labels[..i] == labels;
  }

  lemma {:induction false} DistinctSetSize(order: seq<string>)
    requires forall i, j :: 0 <= i < j < |order| ==> order[i] != order[j]
    ensures |TeamsIn(order)| == |order|
  {
    if order != [] {
      DistinctSetSize(order[1..]);
      assert TeamsIn(order) == {order[0]} + TeamsIn(order[1..]);
      assert order[0] !in TeamsIn(order[1..]);
    }
  }

  ghost function Resolved(mode: MatchMode, teams: seq<Option<string>>): Topology
  {
    var n, authored := |teams|, Labels(teams);
    if mode == Solo || (n >= 2 && NoneAuthored(authored)) then Topology(Derived, DerivedTeamIds(mode, n), [])
    else if n < 2 then Topology(Derived, DerivedTeamIds(mode, n), [InsufficientParticipants])
    else if !AllAuthored(authored) then Topology(Derived, DerivedTeamIds(mode, n), [MixedTeams])
    else Topology(Authored, Unwrap(authored), PolicyIssues(mode, Unwrap(authored)))
  }

  /** Canonical topology: authored labels are kept only when coherent. */
  method ResolveTeamTopology(mode: MatchMode, teams: seq<Option<string>>) returns (t: Topology)
    ensures t == Resolved(mode, teams)
  {
    var n := |teams|;
    var fallback := DerivedTeamIds(mode, n);
    if mode == Solo {
      return Topology(Derived, fallback, []);
    }
    if n < 2 {
      return Topology(Derived, fallback, [InsufficientParticipants]);
    }
    var authored := Labels(teams);
    var authoredCount := 0;
    var i := 0;
    while i < n
      invariant 0 <= i <= n && 0 <= authoredCount <= i
      invariant authoredCount == 0 <==> forall j :: 0 <= j < i ==> authored[j].None?
      invariant authoredCount == i <==> forall j :: 0 <= j < i ==> authored[j].Some?
    {
      if authored[i].Some? {
        authoredCount := authoredCount + 1;
      }
      i := i + 1;
    }
    if authoredCount == 0 {
      return Topology(Derived, fallback, []);
    }
    if authoredCount != n {
      return Topology(Derived, fallback, [MixedTeams]);
    }
    var labels := Unwrap(authored);
    var issues := CheckPolicy(mode, labels);
    return Topology(Authored, labels, issues);
  }

  method Extremes(labels: seq<string>, order: seq<string>, counts: map<string, nat>)
      returns (smallest: nat, largest: nat)
    requires order != [] && Counted(labels, order, counts)
    ensures forall t :: t in labels ==> smallest <= SizeOf(labels, t) <= largest
    ensures exists t :: t in labels && SizeOf(labels, t) == smallest
    ensures exists t :: t in labels && SizeOf(labels, t) == largest
  {
    smallest, largest := counts[order[0]], counts[order[0]];
    ghost var least, most := order[0], order[0];
    var i := 1;
    while i < |order|
      invariant 1 <= i <= |order|
      invariant least in counts && counts[least] == smallest && most in counts && counts[most] == largest
      invariant forall j :: 0 <= j < i ==> smallest <= counts[order[j]] <= largest
    {
      var size := counts[order[i]];
      if size > largest {
        largest, most := size, order[i];
      }
      if size < smallest {
        smallest, least := size, order[i];
      }
      i := i + 1;
    }
    forall t | t in labels ensures smallest <= SizeOf(labels, t) <= largest {
      var j :| 0 <= j < |order| && order[j] == t;
    }
  }

  /** The extreme sizes decide the capacity and balance questions. */
  lemma ExtremesDecide(labels: seq<string>, smallest: nat, largest: nat, capacity: nat)
    requires forall t :: t in labels ==> smallest <= SizeOf(labels, t) <= largest
    requires exists t :: t in labels && SizeOf(labels, t) == smallest
    requires exists t :: t in labels && SizeOf(labels, t) == largest
    ensures OverCapacity(labels, capacity) <==> largest > capacity
    ensures Unbalanced(labels) <==> largest - smallest > 1
  {
    var t :| t in labels && SizeOf(labels, t) == largest;
    var u :| u in labels && SizeOf(labels, u) == smallest;
    assert largest - smallest > 1 ==> Unbalanced(labels);
  }

  method CheckPolicy(mode: MatchMode, labels: seq<string>) returns (issues: seq<Issue>)
    requires labels != []
    ensures issues == PolicyIssues(mode, labels)
  {
    var order, counts := CountTeams(labels);
    DistinctSetSize(order);
    assert TeamsIn(order) == TeamsIn(labels);
    assert labels[0] in order;
    var smallest, largest := Extremes(labels, order, counts);
    ExtremesDecide(labels, smallest, largest, TeamCapacity(mode));
    issues := [];
    if |order| != ExpectedTeamCount(mode, |labels|) {
      issues := issues + [WrongTeamCount];
    }
    if largest > TeamCapacity(mode) {
      issues := issues + [TeamOverCapacity];
    }
    if largest - smallest > 1 {
      issues := issues + [UnbalancedTeams];
    }
  }

  // ----- the derived assignment satisfies the policy -----

  lemma {:induction false} CalledSize(turns: seq<nat>, k: nat)
    ensures SizeOf(Called(turns), TeamName(k)) == multiset(turns)[k]
  {
    if turns != [] {
      var n := |turns| - 1;
      CalledSize(turns[..n], k);
      assert turns == turns[..n] + [turns[n]];
      assert Called(turns) == Called(turns[..n]) + [TeamName(turns[n])];
      if TeamName(turns[n]) == TeamName(k) {
        NamesDiffer(turns[n], k);
      }
    }
  }

  lemma {:induction false} TurnCount(n: nat, teams: nat, k: nat)
    requires k < teams
    ensures multiset(Turns(n, teams))[k] == Rng.CountResidue(n, teams, k)
  {
    if n > 0 {
      TurnCount(n - 1, teams, k);
      assert Turns(n, teams) == Turns(n - 1, teams) + [(n - 1) % teams];
    }
  }

  /** Round-robin sizes are the quotient, one more for the first few teams. */
  lemma RoundRobinSize(n: nat, teams: nat, k: nat)
    requires k < teams
    ensures SizeOf(RoundRobin(n, teams), TeamName(k)) == n / teams + if k < n % teams then 1 else 0
  {
    CalledSize(Turns(n, teams), k);
    TurnCount(n, teams, k);
    var q, r, whole := Quotient(n, teams);
    ResidueCount(n, teams, k, q, r, whole);
  }

  lemma Quotient(n: nat, d: nat) returns (q: nat, r: nat, whole: nat)
    requires d > 0
    ensures q == n / d && r == n % d && r < d && whole == q * d && n == whole + r
  {
    q, r, whole := n / d, n % d, n / d * d;
  }

  lemma ResidueCount(n: nat, teams: nat, k: nat, q: nat, r: nat, whole: nat)
    requires k < teams && r < teams && whole == q * teams && n == whole + r
    ensures Rng.CountResidue(n, teams, k) == q + if k < r then 1 else 0
  {
    Rng.ResiduesOfBlocks(q, teams, k);
    Rng.QuotientUnique(q, 0, teams);
    Rng.OneBlock(whole, r, teams, k);
  }

  lemma {:induction false} LabelSet(teams: nat) returns (s: set<string>)
    ensures forall t :: t in s <==> exists k :: 0 <= k < teams && t == TeamName(k)
    ensures |s| == teams
  {
    if teams == 0 {
      s := {};
    } else {
      var rest := LabelSet(teams - 1);
      s := rest + {TeamName(teams - 1)};
      forall k | 0 <= k < teams - 1 ensures TeamName(k) != TeamName(teams - 1) {
        if TeamName(k) == TeamName(teams - 1) {
          NamesDiffer(k, teams - 1);
        }
      }
    }
  }

  lemma RoundRobinTeams(n: nat, teams: nat)
    requires 1 <= teams <= n
    ensures |TeamsIn(RoundRobin(n, teams))| == teams
    ensures forall t :: t in RoundRobin(n, teams) <==> exists k :: 0 <= k < teams && t == TeamName(k)
  {
    var turns := Turns(n, teams);
    assert forall i :: 0 <= i < n ==> turns[i] < teams;
    forall k | 0 <= k < teams ensures turns[k] == k {
      Rng.QuotientUnique(0, k, teams);
    }
    CalledTeams(turns, teams);
  }

  lemma CalledTeams(turns: seq<nat>, teams: nat)
    requires teams <= |turns| && forall k :: 0 <= k < teams ==> turns[k] == k
    requires forall i :: 0 <= i < |turns| ==> turns[i] < teams
    ensures |TeamsIn(Called(turns))| == teams
    ensures forall t :: t in Called(turns) <==> exists k :: 0 <= k < teams && t == TeamName(k)
  {
    var labels := Called(turns);
    forall t ensures t in labels <==> exists k :: 0 <= k < teams && t == TeamName(k) {
      if t in labels {
        var i :| 0 <= i < |turns| && labels[i] == t;
        assert t == TeamName(turns[i]);
      }
      if k :| 0 <= k < teams && t == TeamName(k) {
        assert labels[k] == TeamName(turns[k]);
      }
    }
    var s := LabelSet(teams);
    assert TeamsIn(labels) == s;
  }

  /** Team ids written back onto the spawn points. */
  function Authoring(ids: seq<string>): seq<Option<string>>
  {
    seq(|ids|, i requires 0 <= i < |ids| => Some(ids[i]))
  }

  lemma CapacityCovers(mode: MatchMode, n: nat)
    requires mode != Solo && n >= 2
    ensures var t := ExpectedTeamCount(mode, n);
            && 2 <= t <= n
            && n / t + (if n % t > 0 then 1 else 0) <= TeamCapacity(mode)
  {
    var t := ExpectedTeamCount(mode, n);
    var q, r, whole := Quotient(n, t);
    Rounding(n, t, q, r, TeamCapacity(mode));
  }

  lemma Rounding(n: nat, t: nat, q: nat, r: nat, capacity: nat)
    requires t > 0 && r < t && n == q * t + r && 2 <= capacity <= 4
    requires n <= t * capacity
    ensures q + (if r > 0 then 1 else 0) <= capacity
  {
    Scale(q, capacity, t);
    Scale(q, capacity + 1, t);
  }

  lemma Scale(a: nat, b: nat, t: nat)
    ensures a >= b ==> a * t >= b * t
  {
    if a >= b {
      assert a * t - b * t == (a - b) * t;
    }
  }

  lemma DerivedPolicyHolds(mode: MatchMode, n: nat)
    requires mode != Solo && n >= 2
    ensures PolicyIssues(mode, DerivedTeamIds(mode, n)) == []
  {
    var labels, t := DerivedTeamIds(mode, n), ExpectedTeamCount(mode, n);
    CapacityCovers(mode, n);
    RoundRobinTeams(n, t);
    var q, r, whole := Quotient(n, t);
    forall x | x in labels ensures q <= SizeOf(labels, x) <= q + (if r > 0 then 1 else 0) {
      var k :| 0 <= k < t && x == TeamName(k);
      RoundRobinSize(n, t, k);
    }
  }

  lemma CalledReadsBack(turns: seq<nat>)
    ensures AllAuthored(Labels(Authoring(Called(turns))))
    ensures Unwrap(Labels(Authoring(Called(turns)))) == Called(turns)
  {
    var labels := Called(turns);
    forall i | 0 <= i < |turns| ensures Labels(Authoring(labels))[i] == Some(labels[i]) {
      NameIsNormal(turns[i]);
    }
  }

  /**
   For duos and squads of at least two, the derived round-robin teams fed back as authored
   labels are accepted without a single issue and kept as they are.
   */
  lemma DerivedTeamsAreAccepted(mode: MatchMode, n: nat)
    requires mode != Solo && n >= 2
    ensures Resolved(mode, Authoring(DerivedTeamIds(mode, n))) == Topology(Authored, DerivedTeamIds(mode, n), [])
  {
    DerivedPolicyHolds(mode, n);
    CapacityCovers(mode, n);
    CalledReadsBack(Turns(n, ExpectedTeamCount(mode, n)));
    assert Labels(Authoring(DerivedTeamIds(mode, n)))[0].Some?;
  }

  lemma {:induction false} TrimStartOf(s: string)
    ensures TrimStart(s) != "" ==> !IsSpace(TrimStart(s)[0])
  {
    if s != "" && IsSpace(s[0]) {
      TrimStartOf(s[1..]);
    }
  }

  lemma {:induction false} TrimEndOf(s: string)
    ensures TrimEnd(s) <= s && (TrimEnd(s) != "" ==> !IsSpace(TrimEnd(s)[|TrimEnd(s)| - 1]))
  {
    if s != "" && IsSpace(s[|s| - 1]) {
      TrimEndOf(s[..|s| - 1]);
    }
  }

  lemma NormalizingTwice(value: Option<string>)
    ensures NormalizedTeam(NormalizedTeam(value)) == NormalizedTeam(value)
  {
    if value.Some? && NormalizedTeam(value).Some? {
      var trimmed := TrimStart(value.value);
      TrimStartOf(value.value);
      TrimEndOf(trimmed);
      var s := TrimEnd(trimmed);
      assert s[0] == trimmed[0];
      assert TrimStart(s) == s && TrimEnd(s) == s;
    }
  }

  /** Writing the resolved ids back and resolving again changes no id, whatever was authored. */
  lemma ResolvingTwice(mode: MatchMode, teams: seq<Option<string>>)
    ensures Resolved(mode, Authoring(Resolved(mode, teams).teamIds)).teamIds == Resolved(mode, teams).teamIds
  {
    var n, ids := |teams|, Resolved(mode, teams).teamIds;
    var again := Authoring(ids);
    if mode != Solo && n >= 2 {
      if Resolved(mode, teams).source == Authored {
        forall i | 0 <= i < n ensures Labels(again)[i] == Some(ids[i]) {
          NormalizingTwice(teams[i]);
          assert Labels(teams)[i] == Some(ids[i]);
        }
        assert AllAuthored(Labels(again)) && Unwrap(Labels(again)) == ids;
      } else {
        DerivedTeamsAreAccepted(mode, n);
      }
    }
  }

  lemma {:induction false} TrimStartCuts(s: string) returns (front: string)
    ensures s == front + TrimStart(s) && forall c :: c in front ==> IsSpace(c)
  {
    front := "";
    if s != "" && IsSpace(s[0]) {
      var rest := TrimStartCuts(s[1..]);
      front := [s[0]] + rest;
    }
  }

  lemma {:induction false} TrimEndCuts(s: string) returns (back: string)
    ensures s == TrimEnd(s) + back && forall c :: c in back ==> IsSpace(c)
  {
    back := "";
    if s != "" && IsSpace(s[|s| - 1]) {
      var rest := TrimEndCuts(s[..|s| - 1]);
      back := rest + [s[|s| - 1]];
    }
  }

  /** A label counts as authored by what is left without the white space around it, unless that is empty or "solo". */
  lemma LabelIsTrimmed(value: string) returns (front: string, middle: string, back: string)
    ensures value == front + middle + back
    ensures (forall c :: c in front ==> IsSpace(c)) && forall c :: c in back ==> IsSpace(c)
    ensures middle != "" ==> !IsSpace(middle[0]) && !IsSpace(middle[|middle| - 1])
    ensures NormalizedTeam(Some(value)) == if middle == "" || IsSolo(middle) then None else Some(middle)
  {
    var trimmed := TrimStart(value);
    TrimStartOf(value);
    TrimEndOf(trimmed);
    front := TrimStartCuts(value);
    back := TrimEndCuts(trimmed);
    middle := TrimEnd(trimmed);
    assert middle != "" ==> middle[0] == trimmed[0];
  }

  /** The slot has a label that counts. */
  predicate Labelled(team: Option<string>)
  {
    NormalizedTeam(team).Some?
  }

  ghost predicate AllLabelled(teams: seq<Option<string>>)
  {
    forall i :: 0 <= i < |teams| ==> Labelled(teams[i])
  }

  ghost predicate NoneLabelled(teams: seq<Option<string>>)
  {
    forall i :: 0 <= i < |teams| ==> !Labelled(teams[i])
  }

  lemma LabellingIs(teams: seq<Option<string>>)
    ensures AllAuthored(Labels(teams)) <==> AllLabelled(teams)
    ensures NoneAuthored(Labels(teams)) <==> NoneLabelled(teams)
    ensures |teams| > 0 ==> !(AllLabelled(teams) && NoneLabelled(teams))
  {
    forall i | 0 <= i < |teams| ensures Labels(teams)[i].Some? <==> Labelled(teams[i]) {
    }
    if AllAuthored(Labels(teams)) {
      forall i | 0 <= i < |teams| ensures Labelled(teams[i]) {
        assert Labels(teams)[i].Some?;
      }
    }
    if NoneAuthored(Labels(teams)) {
      forall i | 0 <= i < |teams| ensures !Labelled(teams[i]) {
        assert Labels(teams)[i].None?;
      }
    }
    assert |teams| > 0 ==> Labelled(teams[0]) || !Labelled(teams[0]);
  }

  /**
   Whose teams a match gets: the authored ones exactly in a team mode with two players or more all of
   whom are labelled, else derived ones; and which complaint goes with them.
   */
  lemma TopologyIsExact(mode: MatchMode, teams: seq<Option<string>>)
    ensures var t := Resolved(mode, teams);
            && (t.source == Authored <==> mode != Solo && |teams| >= 2 && AllLabelled(teams))
            && (t.source == Authored ==>
                  && |t.teamIds| == |teams|
                  && forall i :: 0 <= i < |teams| ==> Some(t.teamIds[i]) == NormalizedTeam(teams[i]))
            && (t.source == Derived ==> t.teamIds == DerivedTeamIds(mode, |teams|))
            && (t.source == Derived ==>
                  t.issues == if mode == Solo then []
                              else if |teams| < 2 then [InsufficientParticipants]
                              else if NoneLabelled(teams) then [] else [MixedTeams])
  {
    LabellingIs(teams);
    if Resolved(mode, teams).source == Authored {
      forall i | 0 <= i < |teams| ensures Some(Resolved(mode, teams).teamIds[i]) == NormalizedTeam(teams[i]) {
        assert Labels(teams)[i] == NormalizedTeam(teams[i]);
      }
    }
  }

  // ----- slot selection -----

  /** Rows, then columns, then label. */
  function SpawnOrder(locale: (string, string) -> real): Comparator
  {
    (p: SpawnPoint, q: SpawnPoint) =>
      if p.y != q.y then p.y - q.y
      else if p.x != q.x then p.x - q.x
      else locale(LabelOrEmpty(p.team), LabelOrEmpty(q.team))
  }

  function LabelOrEmpty(team: Option<string>): string
  {
    match NormalizedTeam(team)
    case None => ""
    case Some(name) => name
  }

  /** Upper rows come first, in a row the left, and in one place the host's order of the labels decides. */
  lemma SpawnOrderIsByRow(locale: (string, string) -> real, p: SpawnPoint, q: SpawnPoint)
    ensures SpawnOrder(locale)(p, q) < 0.0 <==>
            || p.y < q.y
            || (p.y == q.y && p.x < q.x)
            || (p.y == q.y && p.x == q.x && locale(LabelOrEmpty(p.team), LabelOrEmpty(q.team)) < 0.0)
  {
  }

  /** The spawn subset used at run time: everything, or a farthest-first prefix of it. */
  method SelectSpawnTeamSlots(authored: seq<SpawnPoint>, maxPlayers: real, locale: (string, string) -> real)
    returns (slots: seq<SpawnPoint>)
    requires Consistent(SpawnOrder(locale))
    ensures |slots| == MinNat(MaxInt0(maxPlayers.Floor), |authored|)
    ensures multiset(slots) <= multiset(authored)
    ensures |slots| == |authored| ==> slots == SortBy(authored, NotAfterIn(SpawnOrder(locale)))
    ensures |slots| < |authored| ==>
      exists ordered :: multiset(ordered) == multiset(authored)
                        && ordered[0] == SortBy(authored, NotAfterIn(SpawnOrder(locale)))[0]
                        && FarthestFirst(SpawnOrder(locale), ordered, []) && slots <= ordered
  {
    var compare := SpawnOrder(locale);
    var sorted := SortBy(authored, NotAfterIn(compare));
    SortMultiset(authored, NotAfterIn(compare));
    var count := MinNat(MaxInt0(maxPlayers.Floor), |sorted|);
    if count < |sorted| {
      var ordered := SpreadOrderSpawnPoints(sorted, compare);
      assert |multiset(ordered)| == |multiset(sorted)|;
      SortSorted(authored, NotAfterIn(compare));
      SortOfSorted(sorted, NotAfterIn(compare));
      assert ordered == ordered[..count] + ordered[count..];
      slots := ordered[..count];
      assert slots <= ordered;
    } else {
      slots := sorted;
    }
  }

  function MaxInt0(n: int): nat { if n >= 0 then n else 0 }
}
