/** The top level of the voting script: every voter's ranking string is scored against the
    candidate roster, each score vector is normalised into a voter state, and the circuit is laid
    out with one block of `k` qubits per voter, where the roster has `2^k` candidates. */
module Voting {
  import opened Wrappers
  import opened Preference
  import opened Amplitude
  import opened Circuit

  datatype VotingError =
    | Encoding(encodeError: EncodeError)   // a voter whose vector `create_voter` rejects
    | Layout(circuitError: CircuitError)   // a controlled-NOT index outside the register

  /** What the script hands to the simulator: the circuit and, for voter `i`, the state written
      by the circuit's `i`-th op (squared amplitudes in roster order). */
  datatype Assembly = Assembly(circuit: Circuit, states: seq<seq<real>>)

  function Pow2(k: nat): nat
  {
    if k == 0 then 1 else 2 * Pow2(k - 1)
  }

  /** A voter's coefficient vector in roster order, as the script lists it for `create_voter`. */
  function VoterVector(preference: string, candidates: seq<Name>): seq<nat>
  {
    InRosterOrder(Coefficients(ParseRanking(preference), candidates), candidates)
  }

  /** Whether group `i` is the last group of `r` naming `c`. */
  predicate LastNamedIn(r: Ranking, c: Name, i: nat)
  {
    i < |r| && c in r[i] && forall l :: i < l < |r| ==> c !in r[l]
  }

  /** The vector handed to `create_voter`: one entry per roster position; a candidate last named
      in group `i` of the ranking's `num_ranks` groups has `num_ranks - i`, and an entry is 0
      exactly when the ranking never names that candidate. */
  lemma VoterVectorMeaning(preference: string, candidates: seq<Name>)
    ensures |VoterVector(preference, candidates)| == |candidates|
    ensures forall j, i :: 0 <= j < |candidates| && LastNamedIn(ParseRanking(preference), candidates[j], i) ==>
      VoterVector(preference, candidates)[j] == |ParseRanking(preference)| - i
    ensures forall j :: 0 <= j < |candidates| ==>
      (VoterVector(preference, candidates)[j] == 0 <==> !Mentions(ParseRanking(preference), candidates[j]))
    ensures forall j :: 0 <= j < |candidates| ==>
      VoterVector(preference, candidates)[j] <= |ParseRanking(preference)|
  {
    var r := ParseRanking(preference);
    var w := VoterVector(preference, candidates);
    forall j | 0 <= j < |candidates|
      ensures w[j] == 0 <==> !Mentions(r, candidates[j])
      ensures w[j] <= |r|
    {
      PositiveIffMentioned(r, candidates, candidates[j]);
      if Mentions(r, candidates[j]) {
        var i := LastGroup(r, candidates[j]).value;
        ScoringRule(r, candidates, candidates[j], i);
      }
    }
    forall j, i | 0 <= j < |candidates| && LastNamedIn(r, candidates[j], i)
      ensures w[j] == |r| - i
    {
      ScoringRule(r, candidates, candidates[j], i);
    }
  }

  /** The state `create_voter` makes of a voter's ranking. */
  function VoterState(preference: string, candidates: seq<Name>): Result<seq<real>, EncodeError>
  {
    CreateVoter(VoterVector(preference, candidates))
  }

  /** Whether a ranking names at least one roster candidate. */
  predicate RanksSomeCandidate(preference: string, candidates: seq<Name>)
  {
    exists c :: c in candidates && Mentions(ParseRanking(preference), c)
  }

  /** `create_voter` rejects a voter exactly when the ranking names no roster candidate. */
  lemma ZeroVectorIffNothingRanked(preference: string, candidates: seq<Name>)
    ensures VoterState(preference, candidates).Failure?
        <==> !RanksSomeCandidate(preference, candidates)
  {
    var r := ParseRanking(preference);
    var w := VoterVector(preference, candidates);
    CreateVoterMeaning(w);
    if RanksSomeCandidate(preference, candidates) {
      var c :| c in candidates && Mentions(r, c);
      PositiveIffMentioned(r, candidates, c);
      var j :| 0 <= j < |candidates| && candidates[j] == c;
      assert w[j] > 0;
    } else {
      forall j | 0 <= j < |w| ensures w[j] == 0 {
        PositiveIffMentioned(r, candidates, candidates[j]);
      }
    }
  }

  /** The collection loop of the script: one coefficient map per ranking, in voter order. */
  method ScoreVoters(preferences: seq<string>, candidates: seq<Name>)
    returns (votersData: seq<CoefficientMap>)
    ensures |votersData| == |preferences|
    ensures forall v :: 0 <= v < |preferences| ==>
      votersData[v] == Coefficients(ParseRanking(preferences[v]), candidates)
  {
    votersData := [];
    for i := 0 to |preferences|
      invariant |votersData| == i
      invariant forall v :: 0 <= v < i ==>
        votersData[v] == Coefficients(ParseRanking(preferences[v]), candidates)
    {
      var names := AdjustValues(preferences[i], candidates);
      votersData := votersData + [names];
    }
  }

  /** The initialisation loop of the script: each voter's coefficients, in roster order, are
      normalised by `create_voter`; the first zero vector aborts the loop with its error. */
  method InitialiseVoters(votersData: seq<CoefficientMap>, candidates: seq<Name>)
    returns (r: Result<seq<seq<real>>, EncodeError>)
    requires forall v :: 0 <= v < |votersData| ==> forall c :: c in candidates ==> c in votersData[v]
    ensures r.Failure? ==> r.error == ZeroVector
    ensures r.Failure? ==>
      exists v :: 0 <= v < |votersData| && CreateVoter(InRosterOrder(votersData[v], candidates)).Failure?
    ensures r.Success? ==> |r.value| == |votersData|
    ensures r.Success? ==> forall v :: 0 <= v < |votersData| ==>
      CreateVoter(InRosterOrder(votersData[v], candidates)) == Success(r.value[v])
  {
    var states: seq<seq<real>> := [];
    for i := 0 to |votersData|
      invariant |states| == i
      invariant forall v :: 0 <= v < i ==>
        CreateVoter(InRosterOrder(votersData[v], candidates)) == Success(states[v])
    {
      var voterCoeffs := InRosterOrder(votersData[i], candidates);
      var voterState := CreateVoter(voterCoeffs);
      if voterState.Failure? {
        return Failure(voterState.error);
      }
      states := states + [voterState.value];
    }
    r := Success(states);
  }

  /** The two per-voter loops of the script: every ranking is scored (the collection loop),
      then every score vector, in roster order, is normalised (the initialisation loop). The
      first voter naming no roster candidate aborts with the zero-vector error; otherwise there
      is one unit-length state per voter, of the roster's length, in voter order. */
  method EncodeVoters(preferences: seq<string>, candidates: seq<Name>)
    returns (r: Result<seq<seq<real>>, EncodeError>)
    ensures r.Failure? <==> exists i :: 0 <= i < |preferences| && !RanksSomeCandidate(preferences[i], candidates)
    ensures r.Failure? ==> r.error == ZeroVector
    ensures r.Success? ==> |r.value| == |preferences|
    ensures r.Success? ==> forall i :: 0 <= i < |preferences| ==>
      VoterState(preferences[i], candidates) == Success(r.value[i])
    ensures r.Success? ==> forall i :: 0 <= i < |preferences| ==>
      |r.value[i]| == |candidates| && Sum(r.value[i]) == 1.0
  {
    var votersData := ScoreVoters(preferences, candidates);
    forall v | 0 <= v < |preferences|
      ensures CreateVoter(InRosterOrder(votersData[v], candidates)) == VoterState(preferences[v], candidates)
      ensures VoterState(preferences[v], candidates).Failure? <==> !RanksSomeCandidate(preferences[v], candidates)
    {
      ZeroVectorIffNothingRanked(preferences[v], candidates);
    }
    r := InitialiseVoters(votersData, candidates);
    if r.Success? {
      forall v | 0 <= v < |preferences|
        ensures |r.value[v]| == |candidates| && Sum(r.value[v]) == 1.0
      {
        CreateVoterMeaning(VoterVector(preferences[v], candidates));
      }
    }
  }

  /** The whole script minus its console loop and simulator: encode every voter, then lay out
      the circuit. A voter naming no roster candidate aborts the run before any controlled-NOT
      is added; with one candidate (no qubits per voter) and two voters or more, indexing the
      empty register aborts it. On success there is one unit-length state of `2^k` squared
      amplitudes per voter, computed from that voter's ranking, and the circuit is the layout
      of `BuildCircuit`: `|preferences| * k` qubits and bits, voter `i` initialised on its own
      block, one controlled-NOT per voter but the last, and one final measure of every qubit. */
  method Assemble(preferences: seq<string>, candidates: seq<Name>, k: nat)
    returns (r: Result<Assembly, VotingError>)
    requires |candidates| == Pow2(k)
    ensures (exists i :: 0 <= i < |preferences| && !RanksSomeCandidate(preferences[i], candidates))
      ==> r == Failure(Encoding(ZeroVector))
    ensures (forall i :: 0 <= i < |preferences| ==> RanksSomeCandidate(preferences[i], candidates))
      ==> (r.Failure? <==> k == 0 && |preferences| >= 2)
    ensures r.Failure? && r.error.Layout? ==> r.error.circuitError == QubitIndexOutOfRange(0, 0)
    ensures r.Success? ==> |r.value.states| == |preferences|
    ensures r.Success? ==> forall i :: 0 <= i < |preferences| ==>
      |r.value.states[i]| == Pow2(k) && Sum(r.value.states[i]) == 1.0
    ensures r.Success? ==> forall i :: 0 <= i < |preferences| ==>
      VoterState(preferences[i], candidates) == Success(r.value.states[i])
    ensures r.Success? ==> r.value.circuit.qubits == |preferences| * k == r.value.circuit.clbits
    ensures r.Success? ==> |r.value.circuit.ops| == |preferences| + LinkCount(|preferences|) + 1
    ensures r.Success? ==> forall i :: 0 <= i < |preferences| ==>
      r.value.circuit.ops[i] == Init(i, BlockStart(i, k), BlockStart(i + 1, k))
    ensures r.Success? ==> forall j :: |preferences| <= j < |preferences| + LinkCount(|preferences|) ==>
      r.value.circuit.ops[j] == CX(BlockStart(j - |preferences|, k), BlockStart(j - |preferences|, k) + 1)
    ensures r.Success? ==> forall j :: |preferences| <= j < |preferences| + LinkCount(|preferences|) ==>
      r.value.circuit.ops[j].CX? && r.value.circuit.ops[j].target < r.value.circuit.qubits
    ensures r.Success? ==>
      r.value.circuit.ops[|preferences| + LinkCount(|preferences|)] == Measure(Indices(|preferences| * k), Indices(|preferences| * k))
  {
    var states := EncodeVoters(preferences, candidates);
    if states.Failure? {
      return Failure(Encoding(states.error));
    }
    var circuit := BuildCircuit(|preferences|, k);
    if circuit.Failure? {
      return Failure(Layout(circuit.error));
    }
    r := Success(Assembly(circuit.value, states.value));
  }
}
