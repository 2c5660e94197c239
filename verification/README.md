# Quantum preferential voting: ranking encoder and circuit layout

This project models the sequential logic of `quantumVoting.py`, a script that turns ranked
ballots into an amplitude-encoded quantum circuit:

- **Ranking encoder** (`adjust_values`, module `Preference`). A ranking string such as
  `a>b=c>d` has its spaces removed. It is split on `>` into rank groups and each group on `=`
  into tied names. Every roster candidate named in group `i` of `num_ranks` groups gets the
  coefficient `sqrt(num_ranks - i)`. A name in several groups keeps the value of its last
  group, because later assignments overwrite earlier ones. Names outside the roster are
  ignored, and candidates never named stay 0. The two Python string operations it uses,
  `str.replace(' ', '')` and `str.split(sep)`, are modelled exactly in module `Text`.
- **Normalisation** (`create_voter`, module `Amplitude`). The coefficient vector is divided
  by its Euclidean norm, and the zero vector is rejected with an error.
- **Circuit layout** (the top-level script, modules `Circuit` and `Voting`). There are `n`
  voters and `k = log2(|roster|)` qubits per voter. Both registers get `n * k` slots. Voter
  `i` is initialised on `[i*k, (i+1)*k)`. Then `cx(i*k, i*k + 1)` is added for every voter
  but the last, and finally every qubit `j` is measured into bit `j`. The quantum operations
  are abstract op constructors.

Every coefficient the encoder produces is 0 or the square root of a natural number. The model
therefore keeps SQUARED coefficients as `nat` (`num_ranks - i`, or 0). It states normalisation
over `real` as squared amplitudes: entry `j` of a voter's state is `w[j] / sum(w)`, which is
`(sqrt(w[j]) / norm)^2`.

Edge cases of the code that the model keeps as written:

- Only U+0020 is removed before splitting. Tabs and other whitespace stay part of a name.
- The roster may contain duplicate names. The coefficient map then has one key per distinct
  name, and the roster-order vector repeats its value.
- An empty ranking string is one empty group. It ranks no candidate, unless the empty string
  is itself a roster name, so `create_voter` rejects it with the zero-vector error.
- The controlled-NOT pattern is kept literally. With `k >= 2` both of its qubits lie in voter
  `i`'s own block. With `k == 1` it links voter `i`'s qubit to voter `i + 1`'s.
- With a one-candidate roster (`k == 0`) and two voters or more, `qr[0]` indexes an empty
  register. The model reports this as `QubitIndexOutOfRange(0, 0)`. The circuit library's
  `initialize` may already reject a one-entry state placed on zero qubits, before any
  controlled-NOT; that check is not modelled (see "Left out"), so with `k == 0` the model
  fails only at the index.
- A zero vector is rejected in the initialisation loop, before any controlled-NOT exists. So
  the zero-vector error takes priority over the index error.

The script normalises each voter inside the same loop that appends its `initialize`. The model
normalises all voters first and then lays out the circuit. On success both give the same
states and op list, and on failure both give the same first error.

## Model

| member | source | states |
|---|---|---|
| Text.RemoveSpaces | quantumVoting.py:46 | the result holds every character of the input except U+0020, with the same multiplicities, and no space |
| Text.RemoveSpacesAppend | quantumVoting.py:46 | removing spaces commutes with concatenation, so the kept characters keep their order |
| Text.RemoveSpacesNoSpace | quantumVoting.py:46 | a string without spaces is unchanged |
| Text.SplitOn | quantumVoting.py:46 | `split` always yields at least one piece, and no piece contains the separator |
| Text.SplitOnCount | quantumVoting.py:52 | the number of pieces, hence `num_ranks`, is one more than the number of separators, empty pieces included |
| Text.SplitOnAvoids | quantumVoting.py:46 | a character absent from the string is absent from every piece |
| Text.JoinSplitOn | quantumVoting.py:46 | joining the pieces with the separator gives back the split string |
| Text.SplitOnJoin | quantumVoting.py:46 | splitting the join of separator-free pieces gives back exactly those pieces |
| Text.SplitOnPrefix | quantumVoting.py:46 | splitting `p + sep + t`, where `p` has no separator, yields `p` followed by the pieces of `t` |
| Text.SplitOnWithoutSeparator | quantumVoting.py:56-63 | a group without `=` splits into itself alone, so the plain-name branch assigns exactly what the tied branch would |
| Text.JoinAvoids | quantumVoting.py:46 | joining pieces that avoid a character, with another separator, gives a string that avoids it |
| Preference.ParseRankingShape | quantumVoting.py:46-57 | the number of rank groups is the number of `>` plus one; no parsed name contains a space, `>` or `=` |
| Preference.ParseRankingJoin | quantumVoting.py:46-57 | joining each parsed group's names with `=` and the groups with `>` gives back the ranking string without its spaces; with `ParseRankingShape` and `ParseJoined` this pins the parse down completely |
| Preference.LastGroup | quantumVoting.py:55-63 | a name has no last group exactly when no group names it; otherwise the group found names it and no later group does |
| Preference.Coefficients | quantumVoting.py:41 | the map has exactly one key per roster name |
| Preference.ScoresAfterStep | quantumVoting.py:55-63 | applying group `i` overwrites exactly the roster names in that group with `num_ranks - i` and keeps every other entry |
| Preference.AssignTied | quantumVoting.py:57-60 | the tied-names loop gives `weight` to every name that is already a key, keeps all other entries, and adds no key |
| Preference.ApplyGroup | quantumVoting.py:56-63 | both branches of the loop body give `weight` to exactly the keys among the group's tied names and keep the key set |
| Preference.AdjustValues | quantumVoting.py:29-65 | the step-by-step encoder returns one key per roster name and agrees with the last-group reference definition `Coefficients` |
| Preference.ScoringRule | quantumVoting.py:52-63 | a roster name whose last mention is group `i` gets squared coefficient `num_ranks - i`, which lies in `1..num_ranks` |
| Preference.PositiveIffMentioned | quantumVoting.py:41-63 | a roster name has a non-zero coefficient if and only if the ranking names it; an unnamed one stays 0 |
| Preference.TiesShareCoefficient | quantumVoting.py:56-60 | two names last mentioned in the same group receive the same coefficient |
| Preference.EarlierGroupScoresHigher | quantumVoting.py:55-63 | a name last mentioned in an earlier group scores strictly more than one last mentioned in a later group |
| Preference.LastGroupRespectsMembership | quantumVoting.py:55-63 | the last group of a name depends only on which groups contain it |
| Preference.UnknownNameIgnored | quantumVoting.py:59-63 | adding a non-roster name to any group changes neither the keys nor any entry of the map |
| Preference.OnlyUnknownNamesAllZero | quantumVoting.py:41-63 | a ranking naming only non-roster names yields the all-zero map |
| Preference.EmptyPreferenceAllZero | quantumVoting.py:41-52 | the empty string parses into one empty group and scores every candidate 0, when the empty string is not a roster name |
| Preference.ParseJoined | quantumVoting.py:46-57 | a space-free string joined from groups of plain names parses back into exactly those groups |
| Preference.ParseTiedTriple | quantumVoting.py:46-57 | `a=b>c>d` parses into `[[a, b], [c], [d]]` |
| Preference.TiedGroupsScores | quantumVoting.py:55-63 | over roster `[a, b, c, d]` the groups `[[a, b], [c], [d]]` score 3, 3, 2, 1 |
| Preference.TiedRankingExample | quantumVoting.py:29-65 | `a=b>c>d` over `[a, b, c, d]` gives the tied pair the top score 3, then 2 and 1 |
| Preference.ParsePair | quantumVoting.py:46-57 | `a>b` parses into `[[a], [b]]` |
| Preference.PartialGroupsScores | quantumVoting.py:55-63 | over roster `[a, b, c, d]` the groups `[[a], [b]]` score 2, 1, 0, 0 |
| Preference.PartialRankingExample | quantumVoting.py:29-65 | `a>b` over `[a, b, c, d]` scores the two named candidates 2 and 1 and the unnamed ones 0 |
| Amplitude.SquaredNormBounds | quantumVoting.py:19-22 | the squared norm is zero exactly for the all-zero vector and bounds every entry |
| Amplitude.SquaredNormAppend | quantumVoting.py:19 | the squared norm of a concatenation is the sum of the parts' squared norms, so every entry contributes exactly once |
| Amplitude.SumScaled | quantumVoting.py:26 | dividing every entry by `s` divides the sum by `s` |
| Amplitude.CreateVoter | quantumVoting.py:8-27 | the only error is the zero-vector error; a state has the coefficient vector's length |
| Amplitude.CreateVoterMeaning | quantumVoting.py:19-26 | rejection happens exactly for the zero vector; otherwise the squared amplitudes sum to 1, entry `j` is `w[j] / sum(w)` in `[0, 1]`, zero exactly where the coefficient is zero, and entries are ordered as the coefficients are (both directions) |
| Amplitude.NormalisedStateUnique | quantumVoting.py:19-26 | any state proportional to the coefficients whose squared amplitudes sum to 1 is the one `create_voter` returns |
| Amplitude.ProportionalIsScaled | quantumVoting.py:26 | a proportional vector summing to 1 is the coefficient vector divided by its squared norm |
| Amplitude.SumProportional | quantumVoting.py:19-26 | a vector proportional to the coefficients sums to the same multiple of the squared norm |
| Circuit.LinkInRange | quantumVoting.py:108-110 | with `k >= 1`, both indices of every controlled-NOT are below `n * k` |
| Circuit.BuildCircuit | quantumVoting.py:87-113 | the layout fails exactly when `k == 0` and `n >= 2`, with index 0 in a register of size 0. Otherwise both registers have `n * k` slots. Op `i` initialises voter `i` on `[i*k, (i+1)*k)`. There are `max(n - 1, 0)` controlled-NOTs, the `i`-th from `i*k` to `i*k + 1`, inside the register. One final measure maps qubit `j` to bit `j`. |
| Circuit.BlockWithinRegister | quantumVoting.py:89-105 | every voter block has exactly `k` qubits and lies inside the register |
| Circuit.BlocksDisjoint | quantumVoting.py:98-105 | blocks of distinct voters share no qubit |
| Circuit.BlocksCover | quantumVoting.py:89-105 | every register qubit `q` lies in the block of voter `q / k` |
| Circuit.LinkInsideOwnBlock | quantumVoting.py:108-110 | with `k >= 2` the `i`-th controlled-NOT acts on the first two qubits of voter `i`'s block and on no other voter's block |
| Circuit.LinkCrossesWithOneQubit | quantumVoting.py:108-110 | with `k == 1` the `i`-th controlled-NOT links voter `i`'s qubit to voter `i + 1`'s |
| Voting.VoterVectorMeaning | quantumVoting.py:100 | the vector handed to `create_voter` has one entry per roster position; a candidate last named in group `i` has `num_ranks - i`, every entry is at most `num_ranks`, and an entry is 0 exactly when the ranking never names that candidate |
| Voting.ZeroVectorIffNothingRanked | quantumVoting.py:98-102 | `create_voter` rejects a voter's vector exactly when the ranking names no roster candidate |
| Voting.ScoreVoters | quantumVoting.py:80-82 | the collected data hold one coefficient map per ranking, in voter order, each the encoder's result |
| Voting.InitialiseVoters | quantumVoting.py:98-102 | either some voter's vector is rejected with the zero-vector error, or there is one state per voter, each the normalisation of that voter's vector in roster order |
| Voting.EncodeVoters | quantumVoting.py:80-102 | encoding fails if and only if some voter names no roster candidate. Otherwise there is one state per voter, normalised from its ranking, with the roster's length and squared amplitudes summing to 1. |
| Voting.Assemble | quantumVoting.py:84-113 | an unranked voter aborts with the zero-vector error. Otherwise the run fails exactly when `k == 0` with two voters or more, at the controlled-NOT index (the library's own `initialize` checks are not modelled). On success the states have `2^k` squared amplitudes summing to 1 and come from the rankings. The circuit has `n * k` qubits and bits and `n + max(n - 1, 0) + 1` ops: voter `i` initialised on its own block, then the `i`-th controlled-NOT from `i*k` to `i*k + 1` inside the register, then one measure of qubit `j` into bit `j`. |

## Left out

- The interactive input loop (quantumVoting.py:73-82) is console I/O. The voters' rankings are a parameter.
- The hard-coded roster and the global voter list (quantumVoting.py:68, 71) are parameters.
- Printing, drawing and running the circuit on a statevector simulator (quantumVoting.py:116-123) are external rendering and simulation.
- The quantum meaning of `initialize`, `cx` and `measure` belongs to the simulator library. Their own argument checks are not modelled either: the length of the state against the qubit count (including a one-entry state on zero qubits when `k == 0`), and the normalisation tolerance. The roster precondition `|roster| == 2^k` keeps the lengths consistent.
- Floating-point `np.sqrt` and `np.linalg.norm` are replaced by squared natural coefficients and exact `real` division, so rounding is not modelled.
- `int(np.log2(len(candidates)))` is not computed. `k` is a parameter and `Voting.Assemble` requires `|roster| == 2^k`, so rosters whose size is not a power of two are not modelled.
- Amplitude.CreateVoter: its own contract states only the error and the length. The normalisation properties are stated by `Amplitude.CreateVoterMeaning`, so that callers do not carry them.
