# QuantumHoneycombPSP in Dafny

This project models the compiler at the heart of QuantumHoneycombPSP. The compiler turns a lattice protein-folding instance into a boolean objective for a quantum annealer, and the project proves what that objective means.

A fold of n residues is a chain of n - 1 turns. Each turn is a direction of the lattice, encoded in 2, 3 or 4 bits:
- the square lattice has 4 directions;
- the cubic lattice has 6;
- the triangular prismatic lattice has 8;
- the face-centred cubic lattice has 12.

Boolean *direction predicates* read one turn's bits. A bit-serial *adder network* of half adders counts, in binary, how many turns between two residues go each way. Bitwise XNOR comparisons of those counts give the rest:
- the *overlap* penalty, which flags two residues on the same site;
- the *backtrack* penalty, which flags a turn that undoes the previous one;
- the *redundancy* penalty, which flags unused codes;
- the *adjacency indicator* of a residue pair, which is weighted by the pair's contact energy.

The program renders these formulas three times:
- as pyqubo gate expressions (`QUBO/HCOMB{4,8,12}_QUBO.py`);
- as sympy formulas that are substituted and converted to DNF (`HCOMB4.py`, `HCOMB8.py`, `Binary/HCOMB6.py`, `Binary/HCOMB12.py`);
- as plain text built from string templates (`HCOMB6.py`, `HCOMB12.py` over `BitOps.py`).

Around this core sit the energy matrix of a sequence (`Energy.py`), the decoder from solver bitstrings back to coordinate paths (`Visualize.py`), and the linearisation of product variables for the constrained solver (`Annealer.py`).

## Files

- `outcomes.dfy`: the errors the program can raise (`IndexError`, `KeyError`, `ValueError`) and the `Result`/`Option` wrappers.
- `numeric.dfy`: powers of two, the integer ceiling of log2 that stands for `math.ceil(math.log2(d))`, and decimal rendering.
- `bool_expr.dfy`: one expression datatype for the pyqubo and sympy formulas. It has constants, variables (turn, bit), Not, And, Or, Xor and Xnor. It comes with a boolean `Eval` and pyqubo's 0/1 polynomial value (And = product, Or = a + b - ab, Not = 1 - a).
- `adder.dfy`: the half-adder pass and the loader, generic in the element type. The pyqubo gates and the text templates both instantiate it.
- `bitops_qubo.dfy`: the pyqubo variable table and the direction sums. It proves that the adder's outputs, read as binary, count the true inputs (plus one or two for the seeded sums).
- `assembly.dfy`: the loops every builder shares (running And and Or, bitwise equality, loops over residue pairs and over turns, interaction collection), each proved against the function it computes.
- `geometry.dfy`: vectors, walks and positions, and what it means for a fold to be self-avoiding.
- `axis_tests.dfy` and `three_axes.dfy`: what comparing adder outputs on a given number of bits decides about coordinates.
- `square4.dfy`, `cubic6.dfy`, `hex8.dfy`, `fcc12.dfy`: the four lattices. Each has its direction table, predicates, redundancy, backtrack, overlap and adjacency formulas, and their geometric meaning.
- `square4_qubo.dfy`, `hex8_qubo.dfy`, `fcc12_qubo.dfy`: the pyqubo builders, with their pinned variables and objectives. `objective.dfy` gives the objective's value and the penalty argument.
- `sympy_form.dfy` and `square4_sympy.dfy`, `hex8_sympy.dfy`, `cubic6_sympy.dfy`, `fcc12_sympy.dfy`: the sympy builders and `set_default_and_dnf`.
- `text_form.dfy`, `text_bitops.dfy`, `text_lattice.dfy`, `text_cubic6.dfy`, `text_fcc12.dfy`, `fcc12_templates.dfy`: the text builders, down to Python's `str.replace` and the `s += term + " + "` / `s[:-3]` idiom.
- `energy.dfy`: sequence encodings, the model tables, the energy matrix and the Miyazawa-Jernigan rank remapping.
- `visualize.dfy`: the pinned-bit reconstruction, the integer move tables, the coordinate path, and contact and bond enumeration.
- `annealer.dfy`: variable classification and ancillary constraints on a constrained-model object. It includes the lemma that the constraints force each ancillary to be the AND of its base bits.

Where the program fills a list or a dictionary in a loop, the model keeps the loop, as a method proved against a specification function. Examples are the adder passes, the builders' accumulators, the string `+=` loops, the numpy matrix fill and the constrained model's `add_constraint`. The lemmas are stated about those specification functions.

Two sizings of the comparisons appear in several builders:
- `AsWritten` is the program's bit width, `ceil(log2(amino2 - amino1))`, and its variants;
- `Safe` gives each comparison enough bits for every distance it must tell apart.

Both are modelled. Lemmas prove that the `Safe` formulas mean what the program intends, and counterexample lemmas show where `AsWritten` differs (see Findings).

The sympy files import `sum_of_directions`, `initialize_q_vars` and `sum_of_y` from a `BitOps` module whose shown version (`BitOps.py`) holds only the text twin. Their semantics here are those of `QUBO/BitOps_QUBO.py`, whose names and signatures match.

## Model

| member | source | states |
|---|---|---|
| Adder.Pass | QUBO/BitOps_QUBO.py:13-19 | one pass keeps the list's length |
| Adder.HalfAdderArray | QUBO/BitOps_QUBO.py:13-19 | the array after the in-place downward loop is the pass of its old contents: position bit gets carry(x, y), bit - 1 gets sum(x, y), from the top down |
| Adder.Loader | QUBO/BitOps_QUBO.py:21-31 | the loader returns as many bits as it is given |
| Adder.HalfAdderLoader | QUBO/BitOps_QUBO.py:21-31 | an empty list fails with IndexError at `bit_list[0]`; otherwise the result is the loader's list (low bit of each pass, then the last bit) |
| BitOpsQubo.VarNamesDistinct | QUBO/BitOps_QUBO.py:10 | distinct (step, bit) pairs get distinct names `q_{t}{letter}`, so each pair is its own variable (bits below 26) |
| BitOpsQubo.InitializeQVars | QUBO/BitOps_QUBO.py:5-11 | the table's keys are exactly the (t, q) with t < num_amino and q < qubits_per_amino, each holding the variable of its pair |
| BitOpsQubo.HalfAdderCounts | QUBO/BitOps_QUBO.py:17-18 | sum bit plus twice the carry bit counts the two inputs, under every assignment |
| BitOpsQubo.PassKeepsCount | QUBO/BitOps_QUBO.py:13-19 | after one pass the low bit plus twice the count of the rest equals the count of true inputs |
| BitOpsQubo.LoaderCounts | QUBO/BitOps_QUBO.py:21-31 | the bits the loader returns spell, least significant first, the number of true inputs |
| BitOpsQubo.TermsCount | QUBO/BitOps_QUBO.py:33-38 | the bits appended for steps start .. end - 1 count the predicate hits over those steps |
| BitOpsQubo.SumBitsCounts | QUBO/BitOps_QUBO.py:33-73 | every direction sum has seed + (predicates x steps) bits and spells seed + the number of hits |
| BitOpsQubo.SumOfDirections | QUBO/BitOps_QUBO.py:33-38 | an empty range fails with IndexError; otherwise the bits spell the count of steps that satisfy the predicate |
| BitOpsQubo.SumOfDirectionsPlusOne | QUBO/BitOps_QUBO.py:41-46 | the bits spell one plus the count; an empty range gives the single constant 1 |
| BitOpsQubo.SumOfY | QUBO/BitOps_QUBO.py:49-55 | the bits spell the hits of two predicates per step (a step can count twice); an empty range fails with IndexError |
| BitOpsQubo.SumOfYPlusOne | QUBO/BitOps_QUBO.py:58-64 | the same count plus one |
| BitOpsQubo.SumOfYPlusTwo | QUBO/BitOps_QUBO.py:67-73 | the same count plus two; an empty range gives two bits |
| BitOpsQubo.XnorPoly | QUBO/BitOps_QUBO.py:76-77 | on 0/1 inputs `1 - a - b + 2ab` is 1 exactly when the inputs are equal |
| Assembly.AndFoldMeaning | QUBO/HCOMB4_QUBO.py:92-96 | the running And seeded with 1 holds exactly when every flag holds |
| Assembly.EqualBitsLoop | QUBO/HCOMB4_QUBO.py:131-133 | the loop `acc = And(acc, Xnor(p[bit], m[bit]))` computes the conjunction of the w bitwise equalities |
| Assembly.EqualBitsMeaning | QUBO/HCOMB4_QUBO.py:131-133 | comparing w bits of two adder outputs holds exactly when the numbers they spell agree modulo 2^w |
| Assembly.CompareSums | QUBO/HCOMB4_QUBO.py:112-141 | comparing two direction sums over the same steps holds exactly when (seedP + hits of P) - (seedM + hits of M) is a multiple of 2^w |
| Assembly.TallyBound | QUBO/BitOps_QUBO.py:33-38 | the hit count never exceeds one per predicate and step |
| Assembly.TallyDisplacement | QUBO/HCOMB4_QUBO.py:86-89 | when each step's plus hits minus minus hits is one component of its move, the tallies differ by that component of the displacement |
| Assembly.BitFlagsMeaning | QUBO/HCOMB4_QUBO.py:93-96 | all per-bit overlap flags hold exactly when every compared pair of sums agrees modulo 2^w |
| Assembly.OrPairsMeaning | QUBO/HCOMB4_QUBO.py:84-97 | the Or over residue pairs holds exactly when the flag of some pair at least minSep apart holds |
| Assembly.OrOverPairs | QUBO/HCOMB4_QUBO.py:84-97 | the double loop `for amino1: for amino2 from amino1 + minSep: acc = Or(acc, flag)` computes the Or over those pairs |
| Assembly.OrStepsMeaning | QUBO/HCOMB4_QUBO.py:105-109 | the Or over turns holds exactly when some clause of some turn below k holds |
| Assembly.OrOverSteps | QUBO/HCOMB4_QUBO.py:102-110 | the loop over `range(k)` Or-ing each turn's clauses computes the Or over turns 0 .. k - 1 (none for k <= 0) |
| Assembly.ContactsMembership | QUBO/HCOMB4_QUBO.py:154-158 | a pair gets an interaction term exactly when it is minSep or more apart and its energy is non-zero |
| Assembly.InteractionsAligned | QUBO/HCOMB4_QUBO.py:157-160 | term i is the adjacency indicator of contact i, and energy i is that pair's non-zero matrix entry |
| Assembly.CreateInteractions | QUBO/HCOMB4_QUBO.py:149-162 | the two lists are the indicators and the energies of the pairs minSep or more apart with a non-zero energy, in loop order |
| Assembly.ScanRow | QUBO/HCOMB4_QUBO.py:155-160 | one turn of the outer loop appends the pairs (a1, a1 + minSep) .. (a1, n - 1) with a non-zero energy, with their indicators and energies |
| BoolExpr.ValueIsIndicator | QUBO/HCOMB4_QUBO.py:41-45 | on 0/1 variables the polynomial pyqubo compiles each gate into is the indicator of the gate's truth value |
| BoolExpr.EvalOrOfAnds | QUBO/HCOMB4_QUBO.py:143-146 | (p and q) or (r and s), the shape of both planar contact tests, evaluates as written |
| BoolExpr.Lookup | QUBO/HCOMB4_QUBO.py:50-54 | a pinned key reads its constant and any other key reads its variable |
| BoolExpr.Subst | HCOMB4.py:37-39 | after sympy's `subs` of every pin no pinned variable is left in the formula |
| BoolExpr.SubstEval | HCOMB4.py:37-39 | substituting the pins is evaluating under the assignment with the pins written in |
| BoolExpr.LowBitsAgree | QUBO/HCOMB4_QUBO.py:93-96 | two bit lists agree on their w lowest bits exactly when the numbers they spell agree modulo 2^w |
| Geometry.SameSite | QUBO/HCOMB4_QUBO.py:86-96 | two residues share a site exactly when no coordinate changes between them |
| Geometry.SecondNeighbour | QUBO/HCOMB4_QUBO.py:102-110 | residues i and i + 2 share a site exactly when step i + 1 undoes step i |
| Geometry.SelfAvoidingSplit | QUBO/HCOMB4_QUBO.py:34-40 | with no zero step, a chain is self-avoiding exactly when it never backtracks and residues three or more apart never meet |
| Geometry.ApartFromTwo | QUBO/HCOMB4_QUBO.py:34-40 | with no zero step, neighbouring residues never meet, so only pairs two or more apart matter |
| Geometry.OddApart | Binary/HCOMB6.py:102-124 | when every step changes x + y + z by an odd amount, no pair three apart can meet, so testing pairs from three apart and from four apart (`amino1 + 4`) says the same |
| Numeric.CeilLog2 | QUBO/HCOMB4_QUBO.py:91 | `math.ceil(math.log2(n))` is the least b with n <= 2^b |
| Numeric.CeilLog2AtMost | QUBO/HCOMB4_QUBO.py:91 | any b with n <= 2^b is at least CeilLog2(n) |
| Numeric.IntToString | HCOMB4.py:148 | Python's `str` of an integer is non-empty and starts with a minus sign exactly when the value is negative |
| Numeric.NatToStringInjective | HCOMB4.py:148 | distinct natural numbers render to distinct strings, so the printed pair labels identify the pair |
| Objective.InteractionSumValue | QUBO/HCOMB4_QUBO.py:27-30 | the weighted sum of interaction terms evaluates to the energies of the indicators that hold |
| Objective.TotalInteractionEnergy | QUBO/HCOMB4_QUBO.py:27-30 | the loop builds `interactions[0] * e0 + ...` in order, seeded with 0 |
| Objective.ContactEnergyGap | QUBO/HCOMB4_QUBO.py:32 | two assignments differ in contact energy by at most the sum of the absolute energies |
| Objective.InteractionEnergyMeaning | QUBO/HCOMB4_QUBO.py:26-30 | when each indicator holds exactly on a contact, the contact energy is the energy of the fold's contacts |
| Objective.AssembleValue | QUBO/HCOMB4_QUBO.py:34-40 | contact energy plus penalty times each constraint evaluates to the contact energy plus penalty per violated constraint |
| Objective.ViolationsMeaning | QUBO/HCOMB4_QUBO.py:34-40 | no constraint is violated exactly when every constraint indicator is false |
| Objective.ModelValue | QUBO/HCOMB4_QUBO.py:40 | the objective's value is the contact energy plus the penalty for every violated constraint |
| Objective.Dominance | QUBO/HCOMB4_QUBO.py:32-40 | when the penalty exceeds the sum of absolute energies, any assignment violating a constraint scores strictly above any assignment violating none |
| Objective.SignedPenaltyDominatesWhenNonPositive | QUBO/HCOMB4_QUBO.py:32 | with no positive energy, `1 - sum(energies)` exceeds the sum of absolute energies |
| Objective.SignedPenaltyFailsWithPositiveEnergy | QUBO/HCOMB4_QUBO.py:32 | with the single energy 1 the written penalty is 0, and an assignment violating the only constraint scores strictly below one that keeps it |
| Objective.DominatingPenalty | QUBO/HCOMB4_QUBO.py:32 | one plus the sum of absolute energies always exceeds that sum |
| Objective.DominatingPenaltyAgrees | QUBO/HCOMB4_QUBO.py:32 | it equals the written penalty whenever no energy is positive |
| SympyForm.SetDefaultAndDnf | HCOMB4.py:35-43 | a pinned key outside the table raises KeyError and the result is None |
| SympyForm.SubsAllEval | HCOMB4.py:37-39 | the chain of `subs` evaluates as the formula under the pinned assignment (first `subs` of a key wins) |
| SympyForm.SetDefaultAndDnfMeaning | HCOMB4.py:35-43 | a formula that survives has the meaning of its input with the pins written in, for any sound DNF conversion |
| AxisTests.PinnedReflects | QUBO/HCOMB4_QUBO.py:50-54 | the pinned variable table reads, under any assignment, the turn bits with the presets written in |
| AxisTests.DispBounded | QUBO/HCOMB4_QUBO.py:86-89 | when each step moves at most bound along an axis, a run of steps moves at most bound times its length |
| AxisTests.TestMeaning | QUBO/HCOMB4_QUBO.py:131-133 | a per-axis equality test over w bits holds exactly when seedP - seedM plus the displacement along the axis is a multiple of 2^w |
| AxisTests.TestCatches | QUBO/HCOMB4_QUBO.py:131-133 | the test holds whenever the displacement really is seedM - seedP, whatever the width |
| AxisTests.ExactTest | QUBO/HCOMB4_QUBO.py:131-133 | when 2^w exceeds the reach of the walk plus the seeds, the test holds exactly when the displacement is seedM - seedP |
| AxisTests.OffsetExact | QUBO/HCOMB4_QUBO.py:137-141 | with enough bits the pair of plus-one tests (`x_plus_one or x_minus_one`) holds exactly when the displacement along the axis is 1 or -1 |
| AxisTests.OffsetCatches | QUBO/HCOMB4_QUBO.py:137-141 | the plus-one tests hold whenever the displacement is 1 or -1 |
| AxisTests.Offset2Exact | QUBO/HCOMB8_QUBO.py:163-229 | with enough bits the plus-two tests hold exactly when the displacement along the axis is 2 or -2 |
| AxisTests.Offset2Catches | QUBO/HCOMB8_QUBO.py:163-229 | the plus-two tests hold whenever the displacement is 2 or -2 |
| AxisTests.PlanarContactExact | QUBO/HCOMB4_QUBO.py:143-146 | with unit steps and enough bits, `x_equal and (y+1 or y-1)` or the mirror holds exactly when the two residues are one unit apart along one axis |
| AxisTests.PlanarContactCatches | QUBO/HCOMB4_QUBO.py:143-146 | the planar contact test holds on every pair one unit apart, at any width |
| AxisTests.Width | QUBO/HCOMB4_QUBO.py:91 | the width the compiler compares with: as written `ceil(log2(d))`; the corrected width is large enough that the walk cannot wrap around |
| AxisTests.AxisWidth | QUBO/HCOMB4_QUBO.py:122-135 | the width for a span of d steps with offset k never exceeds the adder's d bits, and the corrected width leaves room for d + k |
| AxisTests.SegmentMeaning | QUBO/HCOMB4_QUBO.py:93-96 | the per-bit flags of several axes all hold exactly when every axis displacement is a multiple of 2^w |
| AxisTests.SegmentExact | QUBO/HCOMB4_QUBO.py:93-96 | with 2^w above the reach of the walk, they all hold exactly when every axis displacement is zero |
| AxisTests.TwoAxesExact | QUBO/HCOMB4_QUBO.py:93-96 | for the planar lattices the overlap flag of a pair holds exactly when both displacements are zero, given enough bits |
| AxisTests.TwoAxesWraps | QUBO/HCOMB4_QUBO.py:93-96 | the flag also holds when both displacements are non-zero multiples of 2^w (the wrap-around the written width allows) |
| AxisTests.TwoAxesCatches | QUBO/HCOMB4_QUBO.py:93-96 | the flag holds whenever both displacements are zero |
| AxisTests.WrapsOnlyZero | QUBO/HCOMB4_QUBO.py:91 | a displacement within the bound wraps to zero modulo 2^w only when it is zero, once 2^w exceeds the bound |
| AxisTests.TwoBitsWrap | QUBO/HCOMB4_QUBO.py:91 | pairs 3 or 4 apart get 2 bits, and a displacement of 4 is 0 modulo 4 |
| ThreeAxes.FlagRead | Binary/HCOMB6.py:115-121 | the overlap flag over three axes holds exactly when all three displacements are multiples of 2^w |
| ThreeAxes.FlagExact | Binary/HCOMB6.py:115-121 | with unit steps and 2^w above the span, it holds exactly when the two residues share a site |
| ThreeAxes.FlagCatches | Binary/HCOMB6.py:115-121 | it holds whenever the two residues share a site |
| ThreeAxes.OverlapExact | Binary/HCOMB6.py:102-124 | with the corrected width, the overlap Or over pairs minSep or more apart holds exactly when two such residues share a site |
| ThreeAxes.OverlapCatches | Binary/HCOMB6.py:102-124 | with the written width it holds on every chain that has such a clash |
| ThreeAxes.OverlapWraps | Binary/HCOMB6.py:102-124 | with the written width it also holds when a pair's three displacements all wrap to zero modulo 2^w |
| ThreeAxes.TestsExact | Binary/HCOMB6.py:140-187 | on unit steps with room, the per-axis equality test means displacement 0 and the offset test means displacement 1 or -1 |
| ThreeAxes.EqualCatches | Binary/HCOMB6.py:140-187 | the equality test holds whenever the axis displacement is zero |
| ThreeAxes.OffByOneCatches | Binary/HCOMB6.py:140-187 | the offset test holds whenever the axis displacement is 1 or -1 |
| ThreeAxes.EqualWraps | Binary/HCOMB6.py:140-187 | the equality test also holds when the displacement is a non-zero multiple of 2^w |
| ThreeAxes.OffByOneWraps | Binary/HCOMB6.py:140-187 | the offset test also holds when the displacement plus one wraps to zero |
| ThreeAxes.WrittenWidths | Binary/HCOMB6.py:140-187 | spans 3 and 4 get 2 bits as written, and 4 wraps to 0 at that width |
| ThreeAxes.ContactWidths | Binary/HCOMB6.py:140-187 | the two widths never exceed the adder outputs, and the corrected ones leave room for the offset tests |
| Square4.Decode | QUBO/HCOMB4_QUBO.py:1-6 | decoding a turn's two bits gives the direction whose code in the table is those bits (01 E, 10 W, 11 N, 00 S) |
| Square4.DecodeCode | QUBO/HCOMB4_QUBO.py:1-6 | the code is a bijection: decoding a direction's code gives the direction back |
| Square4.MovesShape | QUBO/HCOMB4_QUBO.py:1-6 | every turn moves one unit along x or y and never along z |
| Square4.PresetsFixStart | QUBO/HCOMB4_QUBO.py:8 | with the presets the first turn is E and the second is E or N |
| Square4.PresetsKeepCanonicalWalks | QUBO/HCOMB4_QUBO.py:8 | the presets change no walk that already starts E, then E or N |
| Square4.PredicatesMatchTable | QUBO/HCOMB4_QUBO.py:57-78 | `dx_plus`, `dx_minus`, `dy_plus` and `dy_minus` hold exactly when the decoded turn is E, W, N and S |
| Square4.OverlapFlagExact | QUBO/HCOMB4_QUBO.py:86-96 | with the corrected width a pair's flag holds exactly when the two residues share a site |
| Square4.OverlapFlagCatches | QUBO/HCOMB4_QUBO.py:86-96 | with the written width the flag holds whenever the two residues share a site |
| Square4.OverlapFlagWraps | QUBO/HCOMB4_QUBO.py:91 | with the written width the flag also holds when both displacements are multiples of 2^ceil(log2(a2 - a1)) |
| Square4.OverlapExact | QUBO/HCOMB4_QUBO.py:80-99 | corrected: the overlap constraint holds exactly when two residues minSep or more apart share a site |
| Square4.OverlapCatches | QUBO/HCOMB4_QUBO.py:80-99 | as written it holds on every such clash (it never misses one) |
| Square4.OppositeUndoes | QUBO/HCOMB4_QUBO.py:105-109 | a turn undoes another exactly when it is the opposite direction |
| Square4.ReversalPairs | QUBO/HCOMB4_QUBO.py:106-109 | the four pairs the back constraint lists, (E, W), (W, E), (N, S) and (S, N), are exactly the opposite pairs |
| Square4.ReversalsMeaning | QUBO/HCOMB4_QUBO.py:106-109 | one of a turn's four clauses holds exactly when turn t + 1 is opposite to turn t |
| Square4.BackMeaning | QUBO/HCOMB4_QUBO.py:102-110 | the back constraint holds exactly when the walk steps straight back somewhere |
| Square4.ConstraintsExact | QUBO/HCOMB4_QUBO.py:34-38 | with the corrected width, overlap or back holds exactly when the walk is not self-avoiding |
| Square4.ConstraintsCatch | QUBO/HCOMB4_QUBO.py:34-38 | as written, overlap or back holds on every walk that is not self-avoiding |
| Square4.IsMoveComponents | QUBO/HCOMB4_QUBO.py:143-146 | a vector is a lattice move exactly when it is one unit along x or along y |
| Square4.ContactExact | QUBO/HCOMB4_QUBO.py:131-146 | with widths that leave room, the contact test holds exactly when the displacement is one unit |
| Square4.AdjacencyExact | QUBO/HCOMB4_QUBO.py:112-146 | corrected: the adjacency indicator of residues two or more apart holds exactly when they sit one unit apart |
| Square4.AdjacencyCatches | QUBO/HCOMB4_QUBO.py:112-146 | as written it holds on every pair one unit apart |
| Square4.StraightSelfAvoiding | QUBO/HCOMB4_QUBO.py:1-8 | the all-East walk never revisits a site |
| Square4.OverlapFalseAlarm | QUBO/HCOMB4_QUBO.py:91 | as written, the overlap constraint holds on the straight all-East walk of five or more residues, which is self-avoiding: pairs 4 apart get 2 bits and a displacement of 4 wraps to 0 |
| Square4.AdjacencyFalseContact | QUBO/HCOMB4_QUBO.py:122-141 | as written, residues 3 apart on the straight walk (3 units apart) are reported adjacent: 2 bits make 3 look like -1 and 0 like 0 |
| Square4Qubo.SetDefault | QUBO/HCOMB4_QUBO.py:50-54 | the table gains the three presets as constants, (0, 0) = 0, (0, 1) = 1 and (1, 1) = 1, and every other entry keeps its variable |
| Square4Qubo.DefaultTable | QUBO/HCOMB4_QUBO.py:21-23 | the table after `initialize_q_vars(n, 2)` and `set_default` has keys (t, i) with t < n and i < 2 plus the presets, and reads the pinned variables |
| Square4Qubo.CreateOverlapConstraint | QUBO/HCOMB4_QUBO.py:80-99 | the loop builds the overlap Or over pairs four or more apart over the pinned table |
| Square4Qubo.CreateBackConstraint | QUBO/HCOMB4_QUBO.py:102-110 | the loop builds the back Or over turns 0 .. n - 3 over the pinned table |
| Square4Qubo.CreateEnergyFunction | QUBO/HCOMB4_QUBO.py:19-47 | the model is contact energy plus penalty times overlap plus penalty times back, with the penalty `1 - sum(energies)` and contacts three or more apart |
| Square4Qubo.PinnedWalk | QUBO/HCOMB4_QUBO.py:50-54 | the pinned table reads the walk with the presets written in |
| Square4Qubo.SafeObjectiveMeaning | QUBO/HCOMB4_QUBO.py:19-47 | corrected: the model's value is the fold's contact energy plus the penalty per violated constraint, and no constraint is violated exactly when the fold is self-avoiding |
| Square4Qubo.AsWrittenPenalisesClashes | QUBO/HCOMB4_QUBO.py:34-38 | as written, every fold that is not self-avoiding violates a constraint |
| Square4Qubo.AsWrittenPenalisesStraightFold | QUBO/HCOMB4_QUBO.py:34-38 | as written, the straight fold of five or more residues is self-avoiding yet violates a constraint |
| Square4Qubo.SafeFoldsWin | QUBO/HCOMB4_QUBO.py:32-40 | corrected, with no positive energy: every self-avoiding fold scores strictly below every fold that is not |
| Square4Sympy.Subs4Presets | HCOMB4.py:37-39 | the three `subs` calls pin exactly the presets (0, 0) = False, (0, 1) = True, (1, 1) = True |
| Square4Sympy.Finish4 | HCOMB4.py:35-43 | with fewer than two residues the preset keys are missing, the `except` swallows the KeyError and the result is None |
| Square4Sympy.Finish4Meaning | HCOMB4.py:35-43 | a formula that survives means its input with the presets written in |
| Square4Sympy.CreateOverlapConstraint | HCOMB4.py:70-89 | the loop builds the overlap Or over pairs three or more apart, over the unpinned table |
| Square4Sympy.CreateBackConstraint | HCOMB4.py:92-100 | the loop builds the back Or over turns 0 .. n - 3 |
| Square4Sympy.CreateEnergyFunction | HCOMB4.py:18-32 | the finished overlap and back formulas, the printed interaction lines (pair, finished indicator) of the non-zero pairs and their energies |
| Square4Sympy.SafeConstraintsMeaning | HCOMB4.py:23-29 | corrected: the finished overlap or back formula holds exactly when the walk with presets is not self-avoiding |
| Square4Sympy.AsWrittenConstraintsCatch | HCOMB4.py:23-29 | as written, the finished formulas hold on every walk that is not self-avoiding |
| Square4Sympy.SafeLineMeaning | HCOMB4.py:140-148 | corrected: each printed interaction formula holds exactly when the pair touches |
| Hex8.Decode | QUBO/HCOMB8_QUBO.py:1-10 | a turn's three bits decode to the direction whose code they are (111 N, 000 S, 011 NE, 100 SW, 101 NW, 010 SE, 001 U, 110 D) |
| Hex8.DecodeCode | QUBO/HCOMB8_QUBO.py:1-10 | decoding a direction's code gives the direction back |
| Hex8.MovesShape | QUBO/HCOMB8_QUBO.py:1-10 | every turn moves (on the integer approximation), by at most 1 along x and z and at most 2 along y |
| Hex8.PresetsFixStart | QUBO/HCOMB8_QUBO.py:12 | with the presets the first turn is S or U |
| Hex8.PresetsKeepCanonicalWalks | QUBO/HCOMB8_QUBO.py:12 | the presets change no walk whose first turn is S or U |
| Hex8.PredicatesMatchTable | QUBO/HCOMB8_QUBO.py:58-61 | each direction predicate holds exactly on the turns that move that way: x+ on NE and SE, x- on NW and SW, the y and y-twice predicates on the north and south turns, z on U and D |
| Hex8.StepRead | QUBO/HCOMB8_QUBO.py:140-145 | per turn, plus hits minus minus hits along each axis is that turn's component (y counting N and S twice through `sum_of_y`) |
| Hex8.FlagRead | QUBO/HCOMB8_QUBO.py:147-157 | a pair's overlap flag holds exactly when the x and z displacements wrap to zero at w bits and the y displacement at wy bits |
| Hex8.FlagWidths | QUBO/HCOMB8_QUBO.py:147-154 | the widths fit the adder outputs, and the corrected ones exceed the reach of the walk (d along x and z, 2d along y) |
| Hex8.FlagExact | QUBO/HCOMB8_QUBO.py:147-157 | with widths above the reach, the flag holds exactly when the two residues share a site |
| Hex8.FlagCatches | QUBO/HCOMB8_QUBO.py:147-157 | it holds whenever the two residues share a site |
| Hex8.OverlapExact | QUBO/HCOMB8_QUBO.py:134-161 | corrected: the overlap constraint holds exactly when two residues minSep or more apart share a site |
| Hex8.OverlapCatches | QUBO/HCOMB8_QUBO.py:134-161 | as written it holds on every such clash |
| Hex8.CodePairMeaning | QUBO/HCOMB8_QUBO.py:121-125 | a written-out six-bit clause holds exactly when turns t and t + 1 carry the two codes it names |
| Hex8.ReversalPairs | QUBO/HCOMB8_QUBO.py:121-130 | the eight pairs the back constraint lists (NE-SW, SW-NE, NW-SE, SE-NW, N-S, S-N, U-D, D-U) are exactly the opposite pairs |
| Hex8.ReversalsMeaning | QUBO/HCOMB8_QUBO.py:121-130 | one of a turn's eight clauses holds exactly when turn t + 1 is opposite to turn t |
| Hex8.BackMeaning | QUBO/HCOMB8_QUBO.py:109-132 | the back constraint holds exactly when the walk steps straight back somewhere |
| Hex8.ConstraintsExact | QUBO/HCOMB8_QUBO.py:38-44 | with the corrected widths, overlap (pairs three apart) or back holds exactly when the walk is not self-avoiding |
| Hex8.ConstraintsCatch | QUBO/HCOMB8_QUBO.py:38-44 | as written, one of them holds on every walk that is not self-avoiding |
| Hex8.OverlapAloneExact | HCOMB8.py:92-119 | corrected: testing pairs two or more apart, the overlap constraint alone holds exactly when the walk is not self-avoiding |
| Hex8.OverlapAloneCatches | HCOMB8.py:92-119 | as written it holds on every walk that is not self-avoiding |
| Hex8.IsMoveComponents | QUBO/HCOMB8_QUBO.py:222-229 | a vector is a lattice move exactly when it is (0, +-2, 0), (0, 0, +-1) or (+-1, +-1, 0) |
| Hex8.ContactRead | QUBO/HCOMB8_QUBO.py:222-229 | the contact test is the Or of "x, z equal and y off by two", "x, y equal and z off by one" and "z equal, x and y off by one" |
| Hex8.XZTestsExact | QUBO/HCOMB8_QUBO.py:197-210 | with room in the widths, the x and z tests mean displacement 0 and displacement 1 or -1 |
| Hex8.YTestsExact | QUBO/HCOMB8_QUBO.py:201-220 | with room, the y tests mean displacement 0, 1 or -1, and 2 or -2 |
| Hex8.ContactWidths | QUBO/HCOMB8_QUBO.py:195-217 | the five widths fit the adder outputs, and the corrected ones leave room for every offset test |
| Hex8.ContactExact | QUBO/HCOMB8_QUBO.py:195-229 | with room, the contact test holds exactly when the displacement is a lattice move |
| Hex8.ContactCatches | QUBO/HCOMB8_QUBO.py:195-229 | it holds on every displacement that is a lattice move, at any width |
| Hex8.AdjacencyExact | QUBO/HCOMB8_QUBO.py:163-229 | corrected: the adjacency indicator of residues two or more apart holds exactly when they touch |
| Hex8.AdjacencyCatches | QUBO/HCOMB8_QUBO.py:163-229 | as written it holds on every touching pair |
| Hex8.UpSelfAvoiding | QUBO/HCOMB8_QUBO.py:9-12 | the all-Up walk never revisits a site |
| Hex8.OverlapFalseAlarm | QUBO/HCOMB8_QUBO.py:147 | as written, the overlap constraint holds on the all-Up walk of five or more residues, which is self-avoiding: pairs 4 apart get 2 bits and a z displacement of 4 wraps to 0 |
| Hex8.OverlapAloneFalseAlarm | HCOMB8.py:92-119 | as written, testing pairs two apart, the overlap constraint holds on the all-Up walk of three or more residues: pairs 2 apart get 1 bit |
| Hex8.AdjacencyFalseContact | QUBO/HCOMB8_QUBO.py:195-229 | as written, residues 3 apart on the all-Up walk (3 units apart) are reported touching |
| Hex8Qubo.SetDefault | QUBO/HCOMB8_QUBO.py:53-56 | the table gains the presets (0, 0) = 0 and (0, 1) = 0 as constants and every other entry keeps its variable |
| Hex8Qubo.DefaultTable | QUBO/HCOMB8_QUBO.py:26-27 | the table after `initialize_q_vars(n, 3)` and `set_default` has keys (t, i) with t < n and i < 3 plus the presets, and reads the pinned variables |
| Hex8Qubo.CreateBackConstraint | QUBO/HCOMB8_QUBO.py:109-132 | the loop builds the back Or over turns 0 .. n - 3 over the pinned table |
| Hex8Qubo.CreateOverlapConstraint | QUBO/HCOMB8_QUBO.py:134-161 | the loop builds the overlap Or over pairs three or more apart |
| Hex8Qubo.CreateEnergyFunction | QUBO/HCOMB8_QUBO.py:23-51 | the model is contact energy (pairs two or more apart) plus 40 times back plus 40 times overlap |
| Hex8Qubo.PinnedWalk | QUBO/HCOMB8_QUBO.py:53-56 | the pinned table reads the walk with the presets written in |
| Hex8Qubo.SafeObjectiveMeaning | QUBO/HCOMB8_QUBO.py:23-51 | corrected: the model's value is the fold's contact energy plus 40 per violated constraint, and no constraint is violated exactly when the fold is self-avoiding |
| Hex8Qubo.AsWrittenPenalisesClashes | QUBO/HCOMB8_QUBO.py:38-44 | as written, every fold that is not self-avoiding violates a constraint |
| Hex8Qubo.AsWrittenPenalisesStraightFold | QUBO/HCOMB8_QUBO.py:38-44 | as written, the all-Up fold of five or more residues is self-avoiding yet violates a constraint |
| Hex8Qubo.SafeFoldsWin | QUBO/HCOMB8_QUBO.py:36-44 | corrected, when the absolute energies sum below 40: every self-avoiding fold scores strictly below every fold that is not |
| Hex8Sympy.Subs8Presets | HCOMB8.py:37-38 | the two `subs` calls pin exactly (0, 0) and (0, 1) to False |
| Hex8Sympy.Finish8 | HCOMB8.py:35-42 | with no residue the pinned keys are missing and the result is None |
| Hex8Sympy.Finish8Meaning | HCOMB8.py:35-42 | a formula that survives means its input with the pins written in |
| Hex8Sympy.CreateOverlapConstraint | HCOMB8.py:92-119 | the loop builds the overlap Or over pairs two or more apart |
| Hex8Sympy.CreateEnergyFunction | HCOMB8.py:22-32 | the finished overlap formula, the printed interaction lines of the non-zero pairs and their energies |
| Hex8Sympy.SafeOverlapMeaning | HCOMB8.py:27-29 | corrected: the finished overlap formula alone holds exactly when the pinned walk is not self-avoiding |
| Hex8Sympy.AsWrittenOverlapCatches | HCOMB8.py:27-29 | as written it holds on every walk that is not self-avoiding |
| Hex8Sympy.AsWrittenFlagsStraightUp | HCOMB8.py:27-29 | as written it holds on the self-avoiding all-Up walk of three or more residues |
| Hex8Sympy.SafeLineMeaning | HCOMB8.py:190-198 | corrected: each printed interaction formula holds exactly when the pair touches |
| Hex8Sympy.AsWrittenLineCatches | HCOMB8.py:190-198 | as written, each printed interaction formula holds on every touching pair |
| Cubic6.Decode | Binary/HCOMB6.py:1-8 | a turn's three bits decode to the direction whose code they are (000 E, 001 W, 010 N, 011 S, 100 U, 101 D), and to nothing exactly when the first two bits are both set |
| Cubic6.DecodeCode | Binary/HCOMB6.py:1-8 | decoding a direction's code gives the direction back |
| Cubic6.MovesShape | Binary/HCOMB6.py:1-8 | every turn is a unit step or, for the unused codes 11x, no move at all |
| Cubic6.ValidMoves | Binary/HCOMB6.py:1-8 | on a walk with no unused code every step is non-zero and changes x + y + z by an odd amount |
| Cubic6.PresetsFixStart | Binary/HCOMB6.py:43-48 | with the five pins the first turn is E and the second is E or U |
| Cubic6.PresetsKeepCanonicalWalks | Binary/HCOMB6.py:43-48 | the pins change no walk that already starts E, then E or U |
| Cubic6.PredicateBits | Binary/HCOMB6.py:55-89 | each of the six bit patterns tested by `dx_plus` .. `dz_minus` holds exactly when the decoded step has the matching unit component |
| Cubic6.PredicatesMatchTable | Binary/HCOMB6.py:55-89 | `dx_plus` .. `dz_minus` over the variable table hold exactly when turn t moves +1 or -1 along x, y or z |
| Cubic6.UnusedMeaning | Binary/HCOMB6.py:97 | a turn's redundancy clause holds exactly when its first two bits are both set (codes 110 and 111) |
| Cubic6.RedundancyMeaning | Binary/HCOMB6.py:92-99 | the redundancy constraint holds exactly when some turn of the walk uses an unused code |
| Cubic6.ReversalsMeaning | Binary/HCOMB6.py:131-136 | one of a turn's six back clauses holds exactly when turn t moves and turn t + 1 undoes it |
| Cubic6.BackMeaning | Binary/HCOMB6.py:127-137 | on a walk with valid codes the back constraint holds exactly when the walk steps straight back somewhere |
| Cubic6.ConstraintsExact | Binary/HCOMB6.py:25-35 | with the corrected width, redundancy or overlap or back holds exactly when the bits are not a self-avoiding fold |
| Cubic6.ConstraintsCatch | Binary/HCOMB6.py:25-35 | as written, one of the three holds on every assignment that is not a self-avoiding fold |
| Cubic6.ContactRead | Binary/HCOMB6.py:183-187 | the contact test is the Or of the three "two axes equal, third off by one" cases |
| Cubic6.CasesExact | Binary/HCOMB6.py:183-187 | with unit steps and room in the widths, the three cases together hold exactly when the displacement is a unit step |
| Cubic6.ContactExact | Binary/HCOMB6.py:166-187 | with room in the widths the contact test holds exactly when the displacement is a unit step |
| Cubic6.ContactCatches | Binary/HCOMB6.py:166-187 | it holds on every unit displacement at any width |
| Cubic6.AdjacencyExact | Binary/HCOMB6.py:140-187 | corrected: the adjacency indicator of residues two or more apart holds exactly when they touch |
| Cubic6.AdjacencyCatches | Binary/HCOMB6.py:140-187 | as written it holds on every touching pair |
| Cubic6.EIsFold | Binary/HCOMB6.py:1-10 | the all-East walk is a self-avoiding fold |
| Cubic6.OverlapFalseAlarm | Binary/HCOMB6.py:115 | as written, the overlap constraint holds on the all-East fold of five or more residues, which never revisits a site |
| Cubic6.AdjacencyFalseContact | Binary/HCOMB6.py:166-181 | as written, residues 3 apart on the all-East walk (3 units apart) are reported touching |
| Cubic6Sympy.Subs6Presets | Binary/HCOMB6.py:44-48 | the five `subs` calls pin exactly (0, 0), (0, 1), (0, 2), (1, 1) and (1, 2) to False |
| Cubic6Sympy.Finish6 | Binary/HCOMB6.py:41-52 | with fewer than two residues a pinned key is missing, the `except` swallows the KeyError and the result is None |
| Cubic6Sympy.Finish6Meaning | Binary/HCOMB6.py:41-52 | a formula that survives means its input with the pins written in |
| Cubic6Sympy.CreateRedundancyConstraint | Binary/HCOMB6.py:92-99 | the loop builds the Or of the unused-code clauses of turns 0 .. n - 2 |
| Cubic6Sympy.CreateOverlapConstraint | Binary/HCOMB6.py:102-124 | the loop builds the overlap Or over pairs four or more apart |
| Cubic6Sympy.CreateBackConstraint | Binary/HCOMB6.py:127-137 | the loop builds the back Or over turns 0 .. n - 3 |
| Cubic6Sympy.CreateEnergyFunction | Binary/HCOMB6.py:20-38 | the three finished constraints, the printed interaction lines of the non-zero pairs three or more apart and their energies |
| Cubic6Sympy.SafeConstraintsMeaning | Binary/HCOMB6.py:25-35 | corrected: one of the finished formulas holds exactly when the pinned bits are not a self-avoiding fold |
| Cubic6Sympy.AsWrittenConstraintsCatch | Binary/HCOMB6.py:25-35 | as written, one of them holds on every assignment that is not a self-avoiding fold |
| Cubic6Sympy.AsWrittenFlagsStraightE | Binary/HCOMB6.py:115 | as written, the finished overlap formula holds on the all-East fold of five or more residues |
| Cubic6Sympy.SafeLineMeaning | Binary/HCOMB6.py:190-198 | corrected: each printed interaction formula holds exactly when the pair touches |
| Cubic6Sympy.AsWrittenLineCatches | Binary/HCOMB6.py:190-198 | as written, each printed interaction formula holds on every touching pair |
| Cubic6Sympy.AsWrittenLineFalseContact | Binary/HCOMB6.py:190-198 | as written, the formula of residues 3 apart holds on the all-East fold, where they do not touch |
| Fcc12.Decode | QUBO/HCOMB12_QUBO.py:1-14 | a turn's four bits decode to the direction whose code they are (1011 NE, 1111 NW, ..., 1100 DW), and to nothing exactly when the first two bits are both clear |
| Fcc12.DecodeCode | QUBO/HCOMB12_QUBO.py:1-14 | decoding a direction's code gives the direction back |
| Fcc12.IsMoveComponents | QUBO/HCOMB12_QUBO.py:1-14 | a vector is a lattice move exactly when it has two components of size one and a zero third (the integer approximation) |
| Fcc12.MovesShape | QUBO/HCOMB12_QUBO.py:1-14 | every turn is such a move or, for the unused codes 00xx, no move at all |
| Fcc12.ValidMoves | QUBO/HCOMB12_QUBO.py:1-14 | on a walk with no unused code every step is non-zero |
| Fcc12.PresetsFixStart | QUBO/HCOMB12_QUBO.py:16 | with the six presets the first turn is NE and the second is NE, NW, UE or UW |
| Fcc12.PresetsKeepCanonicalWalks | QUBO/HCOMB12_QUBO.py:16 | the presets change no walk that already starts NE, then one of NE, NW, UE, UW |
| Fcc12.PredicateBits | QUBO/HCOMB12_QUBO.py:69-72 | each of the six bit tests `dx_plus` .. `dz_minus` holds exactly when the decoded step has the matching unit component |
| Fcc12.PredicatesMatchTable | QUBO/HCOMB12_QUBO.py:69-105 | over the variable table, `dx_plus` .. `dz_minus` hold exactly when turn t moves +1 or -1 along x, y or z |
| Fcc12.UnusedMeaning | QUBO/HCOMB12_QUBO.py:113-115 | a turn's redundancy clause holds exactly when its first two bits are both clear (the codes 0000 .. 0011) |
| Fcc12.RedundancyMeaning | QUBO/HCOMB12_QUBO.py:108-117 | the redundancy constraint holds exactly when some turn uses an unused code |
| Fcc12.ReversalMeaning | QUBO/HCOMB12_QUBO.py:124-135 | one back clause holds exactly when turn t has the two signed components it names and turn t + 1 has their negations |
| Fcc12.ReversalsMeaning | QUBO/HCOMB12_QUBO.py:124-135 | one of a turn's twelve clauses holds exactly when turn t moves and turn t + 1 undoes it |
| Fcc12.BackMeaning | QUBO/HCOMB12_QUBO.py:120-137 | on a walk with valid codes the back constraint holds exactly when the walk steps straight back somewhere |
| Fcc12.ConstraintsExact | QUBO/HCOMB12_QUBO.py:41-50 | with the corrected width, redundancy or overlap or back holds exactly when the bits are not a self-avoiding fold |
| Fcc12.ConstraintsCatch | QUBO/HCOMB12_QUBO.py:41-50 | as written, one of the three holds on every assignment that is not a self-avoiding fold |
| Fcc12.ContactRead | QUBO/HCOMB12_QUBO.py:209-218 | the contact test is the Or of the three "one axis equal, the other two off by one" cases |
| Fcc12.CasesExact | QUBO/HCOMB12_QUBO.py:209-218 | with lattice moves and room in the widths, the three cases together hold exactly when the displacement is a lattice move |
| Fcc12.ContactExact | QUBO/HCOMB12_QUBO.py:192-218 | with room in the widths the contact test holds exactly when the displacement is a lattice move |
| Fcc12.ContactCatches | QUBO/HCOMB12_QUBO.py:192-218 | it holds on every displacement that is a lattice move, at any width |
| Fcc12.AdjacencyExact | QUBO/HCOMB12_QUBO.py:166-218 | corrected: the adjacency indicator of residues two or more apart holds exactly when they touch |
| Fcc12.AdjacencyCatches | QUBO/HCOMB12_QUBO.py:166-218 | as written it holds on every touching pair |
| Fcc12.NEIsFold | QUBO/HCOMB12_QUBO.py:3 | the all-NE walk is a self-avoiding fold |
| Fcc12.OverlapFalseAlarm | QUBO/HCOMB12_QUBO.py:153 | as written, the overlap constraint holds on the all-NE fold of five or more residues: pairs 4 apart get 2 bits and displacements (4, 4, 0) wrap to 0 |
| Fcc12.AdjacencyFalseContact | QUBO/HCOMB12_QUBO.py:192-218 | as written, residues 3 apart on the all-NE walk (displacement (3, 3, 0)) are reported touching |
| Fcc12Qubo.SetDefault | QUBO/HCOMB12_QUBO.py:60-67 | the table gains the six presets as constants and every other entry keeps its variable |
| Fcc12Qubo.DefaultTable | QUBO/HCOMB12_QUBO.py:29-30 | the table after `initialize_q_vars(n, 4)` and `set_default` has keys (t, i) with t < n and i < 4 plus the presets, and reads the pinned variables |
| Fcc12Qubo.CreateRedundancyConstraint | QUBO/HCOMB12_QUBO.py:108-117 | the loop builds the Or of the unused-code clauses of turns 0 .. n - 2 |
| Fcc12Qubo.CreateOverlapConstraint | QUBO/HCOMB12_QUBO.py:140-163 | the loop builds the overlap Or over pairs three or more apart |
| Fcc12Qubo.CreateBackConstraint | QUBO/HCOMB12_QUBO.py:120-137 | the loop builds the back Or over turns 0 .. n - 3 |
| Fcc12Qubo.CreateEnergyFunction | QUBO/HCOMB12_QUBO.py:26-57 | the model is contact energy (pairs two or more apart) plus the penalty `1 - sum(energies)` times overlap, back and redundancy |
| Fcc12Qubo.PinnedWalk | QUBO/HCOMB12_QUBO.py:60-67 | the pinned table reads the walk with the presets written in |
| Fcc12Qubo.ConstraintsViolated | QUBO/HCOMB12_QUBO.py:41-50 | no constraint is violated exactly when neither redundancy, overlap nor back holds |
| Fcc12Qubo.SafeObjectiveMeaning | QUBO/HCOMB12_QUBO.py:26-57 | corrected: the model's value is the fold's contact energy plus the penalty per violated constraint, and no constraint is violated exactly when the bits are a self-avoiding fold |
| Fcc12Qubo.AsWrittenPenalisesClashes | QUBO/HCOMB12_QUBO.py:41-50 | as written, every assignment that is not a self-avoiding fold violates a constraint |
| Fcc12Qubo.AsWrittenPenalisesStraightFold | QUBO/HCOMB12_QUBO.py:41-50 | as written, the all-NE fold of five or more residues is a self-avoiding fold yet violates a constraint |
| Fcc12Qubo.SafeFoldsWin | QUBO/HCOMB12_QUBO.py:39-50 | corrected, with no positive energy: every self-avoiding fold scores strictly below every assignment that is not one |
| Fcc12Sympy.Subs12Presets | Binary/HCOMB12.py:49-54 | the six `subs` calls pin exactly the presets of the QUBO version |
| Fcc12Sympy.Finish12 | Binary/HCOMB12.py:47-58 | with fewer than two residues a pinned key is missing and the result is None |
| Fcc12Sympy.Finish12Meaning | Binary/HCOMB12.py:47-58 | a formula that survives means its input with the pins written in |
| Fcc12Sympy.CreateRedundancyConstraint | Binary/HCOMB12.py:100-112 | the loop builds the Or of the unused-code clauses of turns 0 .. n - 2 |
| Fcc12Sympy.CreateBackConstraint | Binary/HCOMB12.py:115-132 | the loop builds the back Or over turns 0 .. n - 3 |
| Fcc12Sympy.CreateOverlapConstraint | Binary/HCOMB12.py:135-158 | the loop builds the overlap Or over pairs three or more apart |
| Fcc12Sympy.CreateEnergyFunction | Binary/HCOMB12.py:26-44 | the three finished constraints, the printed interaction lines of the non-zero pairs and their energies |
| Fcc12Sympy.SafeConstraintsMeaning | Binary/HCOMB12.py:31-41 | corrected: one of the finished formulas holds exactly when the pinned bits are not a self-avoiding fold |
| Fcc12Sympy.AsWrittenConstraintsCatch | Binary/HCOMB12.py:31-41 | as written, one of them holds on every assignment that is not a self-avoiding fold |
| Fcc12Sympy.AsWrittenFlagsStraightNE | Binary/HCOMB12.py:148 | as written, the finished overlap formula holds on the all-NE fold of five or more residues |
| Fcc12Sympy.SafeLineMeaning | Binary/HCOMB12.py:216-224 | corrected: each printed interaction formula holds exactly when the pair touches |
| Fcc12Sympy.AsWrittenLineCatches | Binary/HCOMB12.py:216-224 | as written, each printed interaction formula holds on every touching pair |
| Fcc12Sympy.AsWrittenLineFalseContact | Binary/HCOMB12.py:216-224 | as written, the formula of residues 3 apart holds on the all-NE fold, where they do not touch |
| TextBitOps.SubstituteFills | BitOps.py:1-8 | replacing every `a` by the first operand and then every `b` by the second fills the template's slots exactly whenever the first operand holds no `b` |
| TextBitOps.TemplatesAsIntended | BitOps.py:1-8 | the sum, carry and xnor texts equal the intended slot fillings of their templates for any first operand without a `b` |
| TextBitOps.CarryAsWritten | BitOps.py:4-5 | as written, the second replace also rewrites the `b`s of the first operand's text; the intended carry is the product of the two operands |
| TextBitOps.RescanBreaksCarry | BitOps.py:4-5 | a first operand that is the letter `b` is rewritten into the second operand, so the carry text loses it |
| TextBitOps.PassAsIntended | BitOps.py:11-17 | on direction texts without a `b` one adder pass built from the written templates equals the pass built from the intended ones, and the result again holds no `b` |
| TextBitOps.LoaderAsIntended | BitOps.py:20-52 | the whole adder network over such texts is the same with the written and the intended templates |
| TextBitOps.Window | BitOps.py:21-24 | the bit list holds, in order, the texts of steps start to end - 1 and nothing else |
| TextBitOps.SumOfDirectionsHelper | BitOps.py:20-34 | with end <= start the final read of the empty list fails; otherwise the result is the adder network over the steps start .. end - 1, one text per step |
| TextBitOps.SumOfDirectionsPlusOneHelper | BitOps.py:37-52 | with end < start the seed store into the empty list fails; otherwise the result is the adder over `1` and steps start + 1 .. end, one text more than the steps, and just `1` when end == start |
| TextBitOps.SumOfDirectionsPlusOneIntended | BitOps.py:37-52 | the corrected plus-one sum fails exactly when end < start and otherwise has end - start + 1 texts |
| TextBitOps.PlusOneIntendedSameSteps | BitOps.py:37-42 | the corrected plus-one bit list is the seed `1` followed by exactly the bit list of the plain sum |
| TextBitOps.PlusOneReadsOneStepLate | BitOps.py:40-41 | as written, the plus-one bit list reads steps start + 1 .. end, so it includes step end and differs from the intended list whenever the last two steps' texts differ |
| TextForm.AppendedThenCut | HCOMB6.py:115-120 | appending each term with ` + ` and cutting the last three characters joins the terms with ` + ` |
| TextForm.AppendedIsJoin | HCOMB6.py:115-120 | a non-empty list of terms each followed by the separator is their join followed by one separator |
| TextForm.CodeLitsHold | HCOMB6.py:37-53 | the literals spelled from a code hold on a turn's bits exactly when the bits are that code |
| TextForm.ProductTemplate | HCOMB6.py:37-53 | replacing the turn placeholder of a product template by a turn number gives the product of that turn's literals, and the placeholder's letter is the only one replaced |
| TextForm.SumTemplate | HCOMB12.py:43-59 | the same for a sum of products: replacing the placeholder spells the sum for that turn |
| TextForm.ReplaceVariable | HCOMB6.py:33-35 | replacing one variable's spelling in another's changes it only when the bit and the turn are the same |
| TextForm.PinsOnLiteral | HCOMB6.py:33-35 | the chain of pin replaces turns a literal of a pinned bit into its sign and the pinned value and leaves every other literal as it is |
| TextForm.PinsMiss | HCOMB6.py:33-35 | the pin replaces leave a text without a variable unchanged |
| TextLattice.DirectionSums | HCOMB6.py:181-186 | the six direction sums of a pair have one text per step between the two residues |
| TextLattice.DirectionSumsPlusOne | HCOMB6.py:188-193 | the six plus-one sums of a pair have one text more than the steps |
| TextLattice.Width | HCOMB6.py:115 | the bit count ceil(log2(amino2 - amino1)) used to compare the sums is below the number of steps |
| TextLattice.WidthAtLeastTwo | HCOMB6.py:115 | for residues at least three apart at least two bits are compared |
| TextLattice.PairOverlapsMeaning | HCOMB6.py:115-118 | the overlap terms of one pair are, bit by bit, the xnors of the x, y and z plus and minus sums |
| TextLattice.OverlapCoversPair | HCOMB6.py:97-120 | the overlap text contains the terms of every pair at least the minimum separation apart |
| TextLattice.OverlapOnlyPairs | HCOMB6.py:97-120 | every term of the overlap text comes from such a pair |
| TextLattice.CreateOverlapConstraint | HCOMB6.py:97-120 | the overlap constraint is the ` + `-join of the terms of all pairs in loop order |
| TextLattice.OverlapLoops | HCOMB6.py:103-118 | the double loop with its skip builds exactly the rows of pairs in order |
| TextLattice.AdjacencyParts | HCOMB6.py:195-214 | the nine accumulators after the bit loop are the xnor terms of the matching sums, except that the z minus one accumulator is overwritten each pass; HCOMB12.py:225-244 is the same loop, with the same overwrite at HCOMB12.py:244 |
| TextLattice.ZMinusOneKeepsLastTerm | HCOMB6.py:214 | as written, the z minus one part keeps only the last bit's xnor and so differs from the intended join of all bits when two or more bits are compared |
| TextLattice.PartsIntendedJoins | HCOMB6.py:206-214 | with `+=` every minus one part is the join of the xnors of all compared bits |
| TextLattice.AdjacencyIndicator | HCOMB6.py:178-225 | the indicator text is the sum over the lattice's contact cases of the products of their equal and offset parts |
| TextLattice.CreateInteractions | HCOMB6.py:123-140 | the interaction text is one line per contact pair with a non-zero energy, in loop order |
| TextLattice.InteractionLinesMeaning | HCOMB6.py:123-140 | each line belongs to a pair at least the minimum separation apart with a non-zero energy, and is labelled by the pair and weighted by its energy over its indicator |
| TextCubic6.WrittenRenders | HCOMB6.py:37-53 | each written direction template is the product of the literals of its written code |
| TextCubic6.CorrectedRenders | HCOMB6.py:1-9 | the corrected templates are the products of the codes of the table |
| TextCubic6.RedundancyHolds | HCOMB6.py:93 | the redundancy term of a turn holds exactly when its first two bits are both set (codes 110 and 111) |
| TextCubic6.WrittenTableClashes | HCOMB6.py:37-53 | the written templates do not follow the table: the codes used for W and U are the ones the redundancy penalises, no direction gets 000, and no direction gets its table code |
| TextCubic6.TableAgrees | HCOMB6.py:1-9 | with the table's codes every code the redundancy allows is exactly one direction, no direction is penalised, and E is 000 |
| TextCubic6.CreateRedundancyConstraint | HCOMB6.py:85-94 | the redundancy constraint is the ` + `-join of one term per turn |
| TextCubic6.RedundancyTermsAt | HCOMB6.py:92-94 | there are n - 1 terms and term t is the bracketed product of turn t's redundancy literals |
| TextCubic6.OppositeUndoes | HCOMB6.py:148-164 | each backwards pair couples a direction with the one whose step is its negation |
| TextCubic6.CreateBackConstraint | HCOMB6.py:143-175 | the back constraint is the ` + `-join of six terms per turn in loop order |
| TextCubic6.BackTermsAt | HCOMB6.py:166-173 | there are 6(n - 2) terms and term 6t + j is the product of turn t in direction j with turn t + 1 in the opposite direction |
| TextCubic6.CasesAreMoves | HCOMB6.py:216-225 | the three cases of the indicator hold for a vector exactly when it is a lattice move |
| TextCubic6.IndicatorSpelled | HCOMB6.py:216-225 | the indicator text is the three cases (z, y and x offset) in order, joined with ` + ` |
| TextCubic6.PinsFixStart | HCOMB6.py:33-35 | the pins set bits 1-3 of turn 0 and bits 2-3 of turn 1 to 0 and leave every other literal alone |
| TextCubic6.PinsFixEast | HCOMB6.py:33-35 | the pins on turn 0 are those of a code exactly when it is the table's code for E |
| TextCubic6.CreateEnergyFunction | HCOMB6.py:17-35 | the returned text is the redundancy, overlap (pairs three apart), back and interaction sections, with the start pins applied |
| TextCubic6.DxPlusSpelled | HCOMB6.py:37-38 | the dx_plus template is the product of the literals of code 101 |
| TextFcc12.ProdsMeaning | HCOMB12.py:43-59 | each axis template holds on a turn's bits exactly when the decoded move has component +1 (or -1) on that axis |
| TextFcc12.WrittenRenders | HCOMB12.py:43-59 | the six written templates are the sums of products that spell those axis conditions |
| TextFcc12.RedundancyHolds | HCOMB12.py:91-100 | the redundancy term of a turn holds exactly when its code decodes to no direction |
| TextFcc12.CreateRedundancyConstraint | HCOMB12.py:91-100 | the redundancy constraint is the ` + `-join of one term per turn |
| TextFcc12.RedundancyTermsAt | HCOMB12.py:98-100 | there are n - 1 terms and term t is the bracketed product for turn t |
| TextFcc12.Reverse | HCOMB12.py:154-205 | the direction paired with each one in the corrected back terms is the one whose step is its negation |
| TextFcc12.WrittenBacksSpell | HCOMB12.py:154-205 | each written backwards template is the product of one code at turn a and its written partner's code at turn b |
| TextFcc12.CorrectedBacksSpell | HCOMB12.py:154-205 | with SW paired with NE every template is the product of a code and its reverse's code |
| TextFcc12.CreateBackConstraint | HCOMB12.py:149-205 | the back constraint is the ` + `-join of twelve terms per turn in loop order |
| TextFcc12.BackTermsAt | HCOMB12.py:154-205 | there are 12(n - 2) terms and term 12t + j couples turn t in direction j with turn t + 1 in its partner direction |
| TextFcc12.BackHoldsExactly | HCOMB12.py:154-158 | a four-bit-by-four-bit back product holds exactly on its two codes |
| TextFcc12.CorrectedBackMeaning | HCOMB12.py:154-205 | with the corrected pairs a turn pair is penalised exactly when the second move reverses a valid first move |
| TextFcc12.WrittenSecondReverses | HCOMB12.py:157-158 | the written partner of every direction but SW is its reverse; SW is paired with SE instead of NE |
| TextFcc12.WrittenBackMeaning | HCOMB12.py:154-205 | as written, a turn pair is penalised exactly when it is a reversal not starting with SW, or is SW followed by SE |
| TextFcc12.WrittenBackSW | HCOMB12.py:157-158 | as written, SW then NE (a reversal) is not penalised while SW then SE (not a reversal) is |
| TextFcc12.CasesAreMoves | HCOMB12.py:208-255 | the three cases of the indicator hold for a vector exactly when it is a lattice move |
| TextFcc12.IndicatorSpelled | HCOMB12.py:208-255 | the indicator text is the three cases (x, y and z equal, two offsets each) in order, joined with ` + ` |
| TextFcc12.PinsFixStart | HCOMB12.py:39-41 | the pins set bits 1-3 of turn 0 and bit 1 of turn 1 to 1, bit 4 of turns 0 and 1 to 0, and leave every other literal alone |
| TextFcc12.PinsFixSouthWest | HCOMB12.py:39-41 | the pins on turn 0 are those of a code exactly when it is the code of SW |
| TextFcc12.PinsAllowSecond | HCOMB12.py:39-41 | turn 1 keeps bits 2 and 3 free, and its pins agree with a direction exactly for SE, SW, DE and DW |
| TextFcc12.CreateEnergyFunction | HCOMB12.py:23-41 | the returned text is the redundancy, overlap (pairs two apart), back and interaction sections, with the start pins applied |
| TextFcc12.DxPlusSpelled | HCOMB12.py:43-44 | the dx_plus template is the sum of products for x component +1 |
| TextFcc12.BackSWSpelled | HCOMB12.py:157-158 | the written SW template is the product of the codes of SW and SE |
| Energy.EncodeHp | Energy.py:48-68 | the HP encoding has one letter per residue, `H` for the hydrophobic residues and `P` for all others |
| Energy.EncodeHpab | Energy.py:71-95 | the HPAB encoding has one letter per residue, its class among hydrophobic, polar, acidic and basic |
| Energy.HpClassMeaning | Energy.py:63-67 | a residue is `H` exactly when it is one of AGILMFPWV and `P` exactly when it is not |
| Energy.HpabClassMeaning | Energy.py:86-94 | a residue is `H`, `P` or `A` exactly when it is in AGILMFPWV, NQSTY or DE, and `B` exactly when it is in none of them |
| Energy.HpabRefinesHp | Energy.py:48-95 | the two encodings agree on `H`, and HP's `P` splits into HPAB's `P`, `A` and `B` |
| Energy.HpTableMeaning | Energy.py:97-106 | the HP table has exactly the four letter pairs, with energy 1 for `HH` and 0 for the others |
| Energy.HpabTableSymmetric | Energy.py:108-118 | the HPAB table has exactly the sixteen letter pairs and gives a pair and its reverse the same energy |
| Energy.WhpabTableSymmetric | Energy.py:120-129 | the weighted HPAB table has exactly the sixteen letter pairs and is symmetric |
| Energy.TableCoversEncoding | Energy.py:22-29 | every pair of letters of the encoded sequence is a key of the model's table, so the table lookups never fail |
| Energy.HpEntryMeaning | Energy.py:4-6 | under HP the matrix entry of two residues is 1 exactly when both are hydrophobic and 0 otherwise |
| Energy.TableEntrySymmetric | Energy.py:7-12 | under HPAB and WHPAB the matrix is symmetric |
| Energy.FillFromTable | Energy.py:20-29 | the filled matrix is n by n and entry (i, j) is the table's energy of letters i and j |
| Energy.FillRowFromMj | Energy.py:22-27 | a row's lookups all succeed exactly when its pairs are in the contact table; then the row holds those energies, the values read are recorded in order, and the other rows are untouched |
| Energy.FillFromMj | Energy.py:20-27 | the MJ fill succeeds exactly when every residue pair is in the contact table; then entry (i, j) is that pair's contact energy and the recorded values are all entries row by row |
| Energy.EntriesHold | Energy.py:22-27 | every entry of the rows read so far is among the recorded values |
| Energy.EntriesAreEntries | Energy.py:22-27 | every recorded value is the entry of some pair of the rows read so far |
| Energy.Insert | Energy.py:32-33 | inserting a value into a strictly descending list keeps it strictly descending and adds exactly that value |
| Energy.SortedSetElements | Energy.py:32-33 | the list of distinct values holds exactly the values read |
| Energy.DescendingUnique | Energy.py:32-33 | two strictly descending lists with the same elements are equal, so the sorted list of distinct values is determined by the set |
| Energy.DistinctDescending | Energy.py:32-33 | the energies are the distinct values read, in strictly descending order |
| Energy.IndexOf | Energy.py:34-38 | the position of a value in the energies is where that value sits |
| Energy.RankOrder | Energy.py:34-38 | ranks lie between minus the number of distinct energies and -1, a larger energy gets a larger rank and equal energies exactly equal ranks |
| Energy.RankEntries | Energy.py:40-42 | every entry is replaced by the rank of its old value |
| Energy.MjRankOrder | Energy.py:31-42 | after ranking, the MJ matrix orders any two pairs as their contact energies do, with ties exactly on equal energies |
| Energy.MjRanksDense | Energy.py:31-42 | every rank from -1 down to minus the number of distinct energies is the rank of some pair |
| Energy.GetEnergyMatrix | Energy.py:3-45 | an unknown model raises ValueError, an MJ residue pair missing from the table raises KeyError; otherwise the matrix is n by n with the table energy of each pair, or under MJ its dense rank, and every entry is a whole number |
| Visualize.Full4 | Visualize.py:54 | the 4-lattice string exists exactly when the solver output is non-empty and is three bits longer |
| Visualize.Full4Pins | Visualize.py:54 | the preset bits of the square lattice are placed in front and the output's bits fill the free places in order |
| Visualize.Full6Pins | Visualize.py:72 | the preset bits of the cubic lattice are placed and the output's bits fill the free places in order |
| Visualize.Full8Pins | Visualize.py:93 | the preset bits of the prismatic lattice are placed and the output follows them unchanged |
| Visualize.Full12Pins | Visualize.py:118 | the preset bits of the FCC lattice are placed and the output's bits fill the free places in order |
| Visualize.Moves4Table | Visualize.py:47-52 | the 4-lattice table maps every two-bit code, each to the step of the direction the square lattice gives that code |
| Visualize.Moves4Distinct | Visualize.py:47-52 | every entry of the 4-lattice table is a unit move and different codes move differently |
| Visualize.Moves6Table | Visualize.py:63-70 | the 6-lattice table maps exactly the three-bit codes not starting with 11, each to its direction's step in the cubic lattice |
| Visualize.Moves6Distinct | Visualize.py:63-70 | every entry of the 6-lattice table is a unit move and different codes move differently |
| Visualize.ChunksJoin | Visualize.py:131-132 | the chunks read from the string concatenate back to the string |
| Visualize.GenerateCoordinates | Visualize.py:125-148 | the loop computes the path the specification function gives, failing where the string has a chunk the table lacks |
| Visualize.CoordinatesShape | Visualize.py:125-148 | the path fails with KeyError exactly when some chunk is missing from the table; otherwise it starts at the origin, has one point more than chunks, and each point is the previous one moved by its chunk's vector |
| Visualize.WalkFromFails | Visualize.py:141-146 | the only failure of the walk is a missing table key |
| Visualize.ChunkAt | Visualize.py:141-142 | chunk t is the k characters from position t k |
| Visualize.WholeChunks | Visualize.py:141-146 | with a table of k-bit codes a successful walk from position i consumes exactly the rest of the string, k characters per point |
| Visualize.CoordinatesCount | Visualize.py:125-148 | with a table of k-bit codes a path exists only for a string of whole chunks, one point more than chunks |
| Visualize.CoordinatesStep | Visualize.py:141-146 | on a successful path chunk t is in the table and moves point t to point t + 1 |
| Visualize.CoordinatesStart | Visualize.py:128-129 | a successful path starts at the origin |
| Visualize.Walk4Positions | Visualize.py:125-135 | the path drawn from a 4-lattice string is the walk of the square lattice over the same bits |
| Visualize.Walk6Positions | Visualize.py:137-146 | the path drawn from a 6-lattice string is the walk of the cubic lattice over the same bits |
| Visualize.CloseToOneOnIntegers | Visualize.py:39-42 | on integer points the distance is strictly between 0.98 and 1.02 exactly when the squared distance is one, that is when the points are one unit apart |
| Visualize.TouchMeaning | Visualize.py:28 | two integer points are one unit apart along an axis exactly when their squared distance is one |
| Visualize.GetInteractionCoords | Visualize.py:21-36 | the two lists are the contact pairs and the bond pairs in loop order |
| Visualize.InteractionsMeaning | Visualize.py:26-29 | a pair is listed as a contact exactly when it is two points one unit apart whose residues are two or more steps apart |
| Visualize.UnitStepsAllConnected | Visualize.py:31-34 | on a path whose consecutive points are one unit apart every bond is drawn, in order |
| Visualize.TableMovesOneUnit | Visualize.py:47-70 | every code of the 4- and 6-lattice tables moves a point one unit |
| Visualize.TableStepsTouch | Visualize.py:45-76 | every step of a path drawn on the 4- or 6-lattice is a unit move |
| Visualize.EncodedSequence | Visualize.py:151-161 | the colour letters are the model's encoding for HP, HPAB and WHPAB and the residues themselves otherwise |
| Visualize.Visualize4 | Visualize.py:45-58 | an empty output raises IndexError, a chunk missing from the table raises KeyError; otherwise what is drawn is the path of the pinned string, its colours, and its contacts and bonds |
| Visualize.Visualize6 | Visualize.py:61-76 | the same for the cubic lattice |
| Visualize.Visualize4Draws | Visualize.py:45-58 | an output of 2n + 1 bits always draws: n + 3 points that follow the square lattice's walk, every bond a unit step |
| Annealer.StripSpaces | Annealer.py:25 | the stripped name has no space and is no longer than the name |
| Annealer.StripSpacesKeeps | Annealer.py:25 | stripping keeps every other character as often as it occurs |
| Annealer.StripSpacesIdempotent | Annealer.py:25 | a name without spaces is unchanged and stripping twice is stripping once |
| Annealer.Split | Annealer.py:26 | splitting gives at least one piece |
| Annealer.SplitJoin | Annealer.py:26 | joining the pieces with the separator gives the string back |
| Annealer.SplitPieces | Annealer.py:26 | no piece holds the separator and there is one piece more than separators |
| Annealer.BaseBitsMeaning | Annealer.py:25-26 | the base bits of an ancillary joined with `*` are its name without spaces, and no base bit holds `*` or a space |
| Annealer.ClassifyPartition | Annealer.py:15-20 | the ancillary and the linear variables together are exactly the model's variables |
| Annealer.ClassifyMeaning | Annealer.py:17-20 | a variable is ancillary exactly when its name holds `*`, and linear exactly when it does not |
| Annealer.Classify | Annealer.py:15-20 | the loop keeps all variables in order and sorts them into ancillary and linear ones |
| Annealer.AllConstraintsFail | Annealer.py:24-34 | building the constraints fails with KeyError exactly when some ancillary has a base bit that is not a variable of the model |
| Annealer.AllConstraintsStep | Annealer.py:24-34 | each ancillary appends its own constraints to those of the ancillaries before it, or makes the whole build fail |
| Annealer.AllConstraintsFailExtends | Annealer.py:24-34 | a failure on a prefix of the ancillaries is a failure of the whole build |
| Annealer.Cqm.FromBqm | Annealer.py:6 | the model starts with the quadratic model's variables and no constraints |
| Annealer.Cqm.AddConstraint | Annealer.py:30 | adding a constraint appends it and changes nothing else |
| Annealer.AddAncillary | Annealer.py:25-34 | one ancillary appends its bit constraints and then its length constraint, or fails with KeyError exactly when one of its base bits is not a variable; the variables never change |
| Annealer.Linearise | Annealer.py:5-34 | the constrained model has the quadratic model's variables and all ancillaries' constraints in order, or the build fails with KeyError |
| Annealer.SumAndAnd | Annealer.py:32-34 | on 0/1 values the product of the base bits is 1 exactly when all are 1, and then their sum is their count; otherwise the sum is at most the count minus one |
| Annealer.BitConstraintsHold | Annealer.py:28-30 | the bit constraints hold exactly when the ancillary is at most each of its base bits |
| Annealer.BitConstraintAt | Annealer.py:28-30 | there is one bit constraint per base bit, in order |
| Annealer.ConstraintsForMeanAnd | Annealer.py:27-34 | on 0/1 values the constraints of an ancillary hold exactly when it equals the product of its base bits |
| Annealer.AllConstraintsMeanAnd | Annealer.py:24-34 | on 0/1 values all constraints hold exactly when every ancillary equals the product of its base bits |
| Annealer.AllHoldAppend | Annealer.py:24-34 | two lists of constraints hold together exactly when each holds |

## Left out

- pyqubo's `compile`, `to_bqm`, `to_qubo` and `to_ising` are foreign degree reduction and serialisation. The objective is modelled as its expression and its 0/1 polynomial value.
- sympy's `to_dnf` is a parameter of the model. Proofs assume only that it preserves meaning whenever it returns a formula; any exception it raises becomes `None`, as in `set_default_and_dnf`.
- Printing is not modelled. The sympy builders of `HCOMB4.py`, `HCOMB8.py`, `Binary/HCOMB6.py` and `Binary/HCOMB12.py` print their interaction terms; here those terms are returned as data.
- The text templates of `BitOps.py`, `HCOMB6.py` and `HCOMB12.py` are given no arithmetic meaning, because their notation overloads `-` and `+`. The model checks their structure instead: substitutions, term counts, literals, pins, and which codes each product tests. `SumHalfAdder`, `CarryHalfAdder` and `XnorText` are plain functions specified by the TextBitOps lemmas.
- `math.log2`/`math.ceil` are modelled as an integer ceiling of log2 on positive integers, not as floating point.
- Energy.GetEnergyMatrix: the 400-entry Miyazawa-Jernigan table (Energy.py:136-217) is a parameter, a map keyed by residue pairs, instead of the literal dictionary of dictionaries. A missing pair raises `KeyError` as the nested lookup would. The numpy matrix is an `array2<real>`.
- The QUBO and text builders (`Assembly`, `TextLattice` and the lattice modules) take the energy matrix as `seq<seq<int>>`, not as the numpy array `Energy.GetEnergyMatrix` returns. That method's contract makes every entry a whole number, so no energy is lost, and `TextLattice.FloatText` writes an entry as `str()` writes a whole float, `<int>.0`. The conversion from `array2<real>` to `seq<seq<int>>` is not modelled.
- Visualize: `visualize_8` and `visualize_12` are modelled only in their bitstring reconstruction (`Full8`, `Full12`). Their move tables use the floating-point values √3/2 and √2/2, so their paths are not modelled.
- Visualize.CloseToOneOnIntegers: `close_to_one(math.dist(...))` is modelled on exact reals over integer points. Floating-point rounding of `math.dist` is not modelled.
- The dispatch in `visualize` (Visualize.py:8-18) and all matplotlib plotting in `plot_lattice` are not modelled. Two-dimensional points are written as three-dimensional points with z = 0.
- Annealer: only lines 15-34 of `annealer` are modelled. The D-Wave sampler, API token, feasibility filter, printing and pickling (Annealer.py:36-57) are I/O.
- Annealer.Cqm.AddConstraint: the constrained model keeps constraints as a list. dimod's labels, and its behaviour on a repeated label, are not modelled. The objective that `from_bqm` copies is not modelled beyond its variables.
- `Sample_Analysis.py` (pickle loading, numpy and charts), `Simplify.py` (a script around sympy `simplify`) and `main.py` (configuration and dispatch) are not part of this model. Neither are the `__main__` blocks.
- The global `q_vars` dictionary is a value passed to the builders: the pinned table for pyqubo, and a fresh table followed by substitution for sympy. It is not a mutable global.

## Findings

Each row names a member that models the code as written together with the lemma that exhibits the discrepancy, and the corrected definition with the intended property proved about it.

| source | as written | input that shows it | evidently intended | confidence | as-written member | corrected member |
|---|---|---|---|---|---|---|
| QUBO/HCOMB4_QUBO.py:91 | the overlap test compares the x and y plus/minus counts on ceil(log2(d)) bits, so it sees them only modulo 2^bits | a straight east fold of 5 residues: residues 0 and 4 have x counts 4 and 0, equal on the 2 bits compared, so a self-avoiding fold is penalised | flag exactly the pairs on the same site, comparing enough bits to tell every count apart | high; not executed | Square4.OverlapFalseAlarm, Square4Qubo.AsWrittenPenalisesStraightFold | Square4.OverlapExact, Square4Qubo.SafeObjectiveMeaning, Square4Qubo.SafeFoldsWin |
| QUBO/HCOMB4_QUBO.py:122-141 | the ±1 tests of the adjacency indicator compare on too few bits as well | a straight east fold: residues 3 apart have x counts 3 + 1 = 4 and 0, equal on 2 bits, so a non-contact is counted as a contact | the indicator holds exactly for residues one unit apart | high; not executed | Square4.AdjacencyFalseContact | Square4.AdjacencyExact |
| QUBO/HCOMB8_QUBO.py:147 | the 8-direction overlap test compares the z counts on ceil(log2(d)) bits | a straight upward fold of 5 residues: residues 0 and 4 have z counts 4 and 0, equal on 2 bits | flag exactly the pairs on the same site | high; not executed | Hex8.OverlapFalseAlarm, Hex8Qubo.AsWrittenPenalisesStraightFold | Hex8.OverlapExact, Hex8Qubo.SafeObjectiveMeaning, Hex8Qubo.SafeFoldsWin |
| HCOMB8.py:105 | the sympy 8-direction overlap test starts at pairs two apart and compares on ceil(log2(d)) bits | a straight upward fold of 3 residues: residues 0 and 2 have z counts 2 and 0, equal on 1 bit | flag exactly the pairs on the same site | high; not executed | Hex8.OverlapAloneFalseAlarm, Hex8Sympy.AsWrittenFlagsStraightUp | Hex8.OverlapAloneExact, Hex8Sympy.SafeOverlapMeaning |
| QUBO/HCOMB8_QUBO.py:195-217 | the adjacency tests of the 8-direction lattice compare on too few bits | a straight upward fold: residues 3 apart are counted as a contact | the indicator holds exactly for lattice neighbours | high; not executed | Hex8.AdjacencyFalseContact | Hex8.AdjacencyExact |
| Binary/HCOMB6.py:115 | the cubic overlap test compares on ceil(log2(d)) bits | a straight east fold of 5 residues: residues 0 and 4 have x counts 4 and 0, equal on 2 bits | flag exactly the folds that are not self-avoiding | high; not executed | Cubic6.OverlapFalseAlarm, Cubic6Sympy.AsWrittenFlagsStraightE | Cubic6.ConstraintsExact, Cubic6Sympy.SafeConstraintsMeaning |
| Binary/HCOMB6.py:166-181 | the cubic adjacency tests compare on too few bits | a straight east fold: residues 3 apart are counted as a contact | the indicator holds exactly for residues one unit apart | high; not executed | Cubic6.AdjacencyFalseContact, Cubic6Sympy.AsWrittenLineFalseContact | Cubic6.AdjacencyExact, Cubic6Sympy.SafeLineMeaning |
| QUBO/HCOMB12_QUBO.py:153 | the 12-direction overlap test compares on ceil(log2(d)) bits | a straight north-east fold of 5 residues: residues 0 and 4 have x and y counts 4 and 0, equal on 2 bits | flag exactly the folds that are not self-avoiding | high; not executed | Fcc12.OverlapFalseAlarm, Fcc12Qubo.AsWrittenPenalisesStraightFold, Fcc12Sympy.AsWrittenFlagsStraightNE | Fcc12.ConstraintsExact, Fcc12Qubo.SafeObjectiveMeaning, Fcc12Sympy.SafeConstraintsMeaning |
| QUBO/HCOMB12_QUBO.py:192-199 | the 12-direction adjacency tests compare on too few bits | a straight north-east fold: residues 3 apart are counted as a contact | the indicator holds exactly for lattice neighbours | high; not executed | Fcc12.AdjacencyFalseContact, Fcc12Sympy.AsWrittenLineFalseContact | Fcc12.AdjacencyExact, Fcc12Sympy.SafeLineMeaning |
| QUBO/HCOMB4_QUBO.py:32 | the penalty is 1 - sum(energies), which is not positive once the energies sum to 1 or more | one interaction with energy 1 (the HP table's `HH`): the penalty is 0, and an assignment that violates a constraint scores lower than one that does not | a penalty larger than any total contact energy, so every violation costs more than any contact can gain | medium; not executed | Objective.SignedPenaltyFailsWithPositiveEnergy | Objective.DominatingPenalty, Objective.Dominance |
| HCOMB12.py:157-158 | `backwards_sw` pairs SW (1110) at turn t with SE (1010) at turn t + 1 | SW then NE is a reversal and is not penalised, while SW then SE is not a reversal and is penalised | SW paired with its reversal NE (1011), like the other eleven terms | high; not executed | TextFcc12.WrittenBackSW, TextFcc12.WrittenBackMeaning | TextFcc12.CorrectedBacksSpell, TextFcc12.CorrectedBackMeaning |
| HCOMB6.py:37-53 | the direction templates test the codes E 101, W 110, N 001, S 010, U 111 and D 100, not the table at HCOMB6.py:1-9 | the codes used for W (110) and U (111) are penalised by the redundancy term at HCOMB6.py:93, and the pins at HCOMB6.py:33-35 fix turn 0 to 000, which no template tests | templates that follow the table, under which no direction is penalised and the pinned start is E | high; not executed | TextCubic6.WrittenTableClashes, TextCubic6.WrittenRenders | TextCubic6.CorrectedRenders, TextCubic6.TableAgrees, TextCubic6.PinsFixEast |
| HCOMB6.py:214 | `z_minus_one = ...` where every other accumulator uses `+=`; HCOMB12.py:244 has the same line | any pair compared on 2 or more bits: the z minus one part keeps only the last bit's xnor | the z minus one part joins the xnors of all compared bits | high; not executed | TextLattice.ZMinusOneKeepsLastTerm | TextLattice.PartsIntendedJoins |
| BitOps.py:40-41 | the plus-one bit list reads `dir_func(amino_start + i)` for i from 1 to d, that is turns start + 1 to end | residues start and end: the plus-one sum leaves out turn start and reads turn end, which lies beyond residue end | the same turns as the plain sum, start to end - 1, under a seed of 1, as `QUBO/BitOps_QUBO.py:41-46` does | high; not executed | TextBitOps.PlusOneReadsOneStepLate | TextBitOps.PlusOneIntendedSameSteps, TextBitOps.SumOfDirectionsPlusOneIntended |
