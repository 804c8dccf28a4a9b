# Velcrux verification

A Dafny model of the protocol, coding and identity cores of `velcrux-core`, with proofs of what they promise.

- **Consensus.** `RaftCoordinator` as a class whose handlers are proved equal to pure functions on a node's state, and
  a cluster of such nodes over a network that loses, duplicates, delays and reorders messages. An inductive invariant
  over history variables (each term's leader and log, every vote, every acknowledgement) gives election safety, log
  matching, leader completeness, state machine safety, soundness of the whole-log match index, and convergence of log
  repair, over all runs of a fixed member list. From every reachable state, a majority that is not ahead of a node can
  elect it and apply a client's command. Lookups in the metadata are characterised by the commands in the log.
- **X25519.** The five-limb field arithmetic, the canonical encoding, the inversion chain and the constant-time ladder,
  with every word kept within its width, refine the ladder of section 5 of RFC 7748 over the integers modulo 2^255-19,
  and the ladder computes multiples of a point by the curve's doubling and addition formulas.
- **ML-KEM.** Polynomial arithmetic, packing and lossy compression as loops; the ring laws; and the exact condition on
  the noise under which decapsulation recovers the encapsulated message.
- **Erasure coding.** GF(2^8) from its tables to the field laws, Gauss-Jordan inversion that is sound and complete, the
  independence of any K rows of the systematic Cauchy generator, and decoding and rebuilding from any K intact shards.
- **Chunking.** The three chunkers refine a rule that looks at one byte at a time; boundaries do not depend on read
  sizes, tile the stream, respect their bounds and fall back into step after edits; the reader reassembles the stream
  in bounded memory.
- **Audit tree.** Inclusion proofs in both directions and for every path length, the sorted index, and for which leaves
  and targets generated exclusion proofs verify. The code checks neither the length of a bound's path nor that the path
  spells the claimed index, so acceptance seldom means absence: the exact condition on the tree is proved for what the
  code accepts, for paths within the tree, for paths of full length, and for a caller who checks the indices as well.
  Only with that last check does it cover every tree with ascending leaves.
- **Base58, identifiers, credentials.** The carry loops never lose a digit, both round trips hold, and identifiers
  resolve to their keys. Delegation chains narrow operations always. All that is accepted below a delegable credential,
  at any depth, keeps within its paths exactly when its list admits, for every pattern in it that ends in two stars,
  what the pattern with one star fewer admits.

`dafny verify dfyconfig.toml` checks the whole project.

## Conventions

Machine words are natural numbers with explicit bounds and explicit wrap-around; bitwise operators are functions on
them. Hash functions, signatures, extendable outputs, mixing tables, random identifiers and clock readings are
parameters, so every result holds for all of them that meet the conditions its contract names: an injective combination
for what Merkle acceptance means, and, for what a holder can delegate, a signer whose proofs in the holder's name are
accepted (`Credentials.CanSign`). A class models an object that the code updates in place; its methods state the whole
new state as a function of the old one. A Raft step reads the clock once.

## Model

| member | source | states |
|---|---|---|
| ClusterMetadata.ApplyIgnoresClock | crates/velcrux-core/src/consensus/mod.rs:199-258 | applying a command with two different clock readings gives states that differ only in lease timestamps |
| ClusterMetadata.ApplyEntriesMeaning | crates/velcrux-core/src/consensus/mod.rs:708-722 | a node that means the first lo entries and applies the next ones means the first hi, whatever its clock says |
| ClusterMetadata.MeaningIsUntimed | crates/velcrux-core/src/consensus/mod.rs:199-258 | the meaning of a log prefix carries no clock reading |
| MetadataHistory.KeyLookup | crates/velcrux-core/src/consensus/mod.rs:240-246 | after any log a key is present once it was updated, with value and version of its last update |
| MetadataHistory.NodeLookup | crates/velcrux-core/src/consensus/mod.rs:201-213 | a node is listed exactly when the last command about it registers it, with that address and role |
| MetadataHistory.FenceLookup | crates/velcrux-core/src/consensus/mod.rs:247-252 | a node is fenced at the epoch of the last fence set for it |
| MetadataHistory.LeaseLookup | crates/velcrux-core/src/consensus/mod.rs:214-239 | a resource is leased exactly when some grant of it, not fenced at the time, was neither granted over since nor released by its holder; the lease names that holder and epoch |
| MetadataHistory.LeaseTimes | crates/velcrux-core/src/consensus/mod.rs:228-239 | a granted lease starts now and lasts the whole seconds asked for, at least one |
| MetadataHistory.LastIs | crates/velcrux-core/src/consensus/mod.rs:199-258 | the last command about a key is the one after which no other is about it |
| MetadataHistory.NoLast | crates/velcrux-core/src/consensus/mod.rs:199-258 | and there is none if no command is about it |
| RaftCoordinator.StateMachine.ApplyCommand | crates/velcrux-core/src/consensus/mod.rs:199-258 | the in-place update of the maps is the pure application of the command |
| RaftCoordinator.Coordinator.constructor | crates/velcrux-core/src/consensus/mod.rs:315-345 | a new coordinator is a fresh follower in term 0 with empty log |
| RaftCoordinator.Coordinator.HandleRequestVote | crates/velcrux-core/src/consensus/mod.rs:378-430 | new state and reply are those of the vote handler on values: step-down, single vote per term, up-to-date check |
| RaftCoordinator.Coordinator.HandleAppendEntries | crates/velcrux-core/src/consensus/mod.rs:433-513 | new state and reply are those of the append handler on values, truncation and whole-log match index included |
| RaftCoordinator.Coordinator.AppendNewEntries | crates/velcrux-core/src/consensus/mod.rs:485-496 | the push and truncate loop computes the merge of the log with the received entries |
| RaftCoordinator.Coordinator.StartElection | crates/velcrux-core/src/consensus/mod.rs:516-541 | new state and request are those of a candidacy in the next term, with a vote for itself only |
| RaftCoordinator.Coordinator.RecordVote | crates/velcrux-core/src/consensus/mod.rs:545-586 | new state and result are those of counting the vote, promotion and the appended Noop included |
| RaftCoordinator.Coordinator.ResetProgress | crates/velcrux-core/src/consensus/mod.rs:571-577 | the loop gives every peer the next index after the log and match index 0 |
| RaftCoordinator.Coordinator.Propose | crates/velcrux-core/src/consensus/mod.rs:590-622 | a leader appends the command with its term and next index, anyone else refuses |
| RaftCoordinator.Coordinator.CreateAppendEntriesForPeer | crates/velcrux-core/src/consensus/mod.rs:625-656 | the request carries the whole log from the peer's next index on |
| RaftCoordinator.Coordinator.HandleAppendResponse | crates/velcrux-core/src/consensus/mod.rs:660-706 | new state is that of taking the reply: progress, step-back by one, largest quorum index of the own term |
| RaftCoordinator.Coordinator.LargestQuorum | crates/velcrux-core/src/consensus/mod.rs:686-704 | the walk down the log ends at the largest index of the own term that a quorum holds, or at the commit index |
| RaftCoordinator.Coordinator.CountMatches | crates/velcrux-core/src/consensus/mod.rs:692-698 | the counting loop gives the number of nodes known to hold an index, the leader included |
| RaftCoordinator.Coordinator.ApplyCommittedEntries | crates/velcrux-core/src/consensus/mod.rs:708-722 | applies exactly the committed entries not yet applied, in order |
| RaftInvariant.MajoritiesMeet | crates/velcrux-core/src/consensus/mod.rs:557-558 | two sets of n/2+1 members share one |
| RaftInvariant.StartInv | crates/velcrux-core/src/consensus/mod.rs:315-345 | the cluster of fresh nodes satisfies the invariant |
| RaftInvariant.TermsMonotone | crates/velcrux-core/src/consensus/mod.rs:472-496 | terms never decrease along a log that the invariant admits |
| RaftInvariant.SameTermAgree | crates/velcrux-core/src/consensus/mod.rs:472-496 | two logs with the same term at a position are equal up to it |
| RaftInvariant.CommittedInLedger | crates/velcrux-core/src/consensus/mod.rs:684-705 | what the quorum rule of a term committed is in the log of every leader of a later term |
| RaftElection.AdvanceInv | crates/velcrux-core/src/consensus/mod.rs:381-388 | adopting a newer term keeps the invariant |
| RaftElection.UpToDateHolds | crates/velcrux-core/src/consensus/mod.rs:402-408 | a log that passes the up-to-date check holds all that the voter acknowledged and that may be committed |
| RaftElection.GrantInv | crates/velcrux-core/src/consensus/mod.rs:402-429 | granting a vote keeps the invariant |
| RaftElection.StandInv | crates/velcrux-core/src/consensus/mod.rs:516-541 | becoming a candidate keeps the invariant |
| RaftElection.CountInv | crates/velcrux-core/src/consensus/mod.rs:553-564 | counting a vote that was cast keeps the invariant |
| RaftLedger.TermIsFree | crates/velcrux-core/src/consensus/mod.rs:557-569 | no other node can have led the term that a candidate wins |
| RaftLedger.WinnerHolds | crates/velcrux-core/src/consensus/mod.rs:557-581 | a winner's log holds everything that may have been committed before |
| RaftLedger.WritesInv | crates/velcrux-core/src/consensus/mod.rs:579-622 | the append of a winner's Noop or of a leader's proposal keeps the invariant |
| RaftFollower.MergeResult | crates/velcrux-core/src/consensus/mod.rs:485-496 | merging a slice of the leader's log either changes nothing or leaves exactly the slice's end |
| RaftFollower.AppendResult | crates/velcrux-core/src/consensus/mod.rs:462-496 | what the consistency check and the merge do to any log, measured against the sender's log |
| RaftFollower.WholeLogMatches | crates/velcrux-core/src/consensus/mod.rs:498-512 | after a successful append the follower's whole log is a prefix of the leader's, so reporting its length is sound |
| RaftFollower.TakesInv | crates/velcrux-core/src/consensus/mod.rs:433-513 | taking or refusing a leader's entries keeps the invariant and every committed entry |
| RaftLeader.LeaderAppendOk | crates/velcrux-core/src/consensus/mod.rs:634-655 | every request a leader sends carries the whole rest of its log |
| RaftLeader.QuorumCommits | crates/velcrux-core/src/consensus/mod.rs:684-705 | the leader's count of matching peers is a majority of real acknowledgements |
| RaftLeader.TallyInv | crates/velcrux-core/src/consensus/mod.rs:673-682 | a reply moves only that peer's progress and never past what the peer acknowledged |
| RaftLeader.CommitInv | crates/velcrux-core/src/consensus/mod.rs:700-722 | advancing the commit index to what is backed, and applying it, keeps the invariant |
| RaftSteps.StepInv | crates/velcrux-core/src/consensus/mod.rs:378-722 | every step of every member, with any message ever sent delivered any number of times, keeps the invariant |
| RaftSafety.EveryRunExplained | crates/velcrux-core/src/consensus/mod.rs:378-722 | every state of every run has a history that satisfies the invariant, later histories extending earlier ones |
| RaftSafety.ElectionSafety | crates/velcrux-core/src/consensus/mod.rs:378-430 | over a whole run at most one node ever leads a given term |
| RaftSafety.LogMatching | crates/velcrux-core/src/consensus/mod.rs:460-496 | in every reachable state entry indices equal positions, terms do not decrease, and equal terms mean equal prefixes |
| RaftSafety.CommittedPrefixesAgree | crates/velcrux-core/src/consensus/mod.rs:684-705 | what two nodes have committed at any two moments of a run is the same as far as both go |
| RaftSafety.StateMachineSafety | crates/velcrux-core/src/consensus/mod.rs:199-258 | two nodes that have applied an index applied the same command there; equal last_applied means equal state up to lease timestamps |
| RaftSafety.LeaderCompleteness | crates/velcrux-core/src/consensus/mod.rs:402-415 | what any node has committed is in the log of every leader of a later term, whenever it leads |
| RaftSafety.StepKeepsCommitted | crates/velcrux-core/src/consensus/mod.rs:472-496 | one step neither lowers a commit index nor changes what was committed |
| RaftSafety.CommittedForever | crates/velcrux-core/src/consensus/mod.rs:472-496 | over a run no commit index goes back, none exceeds the log, and no committed entry is truncated |
| RaftSafety.MatchIndexSound | crates/velcrux-core/src/consensus/mod.rs:498-512 | over a run, a leader's match index for a peer is within its log, and at some moment up to now the peer, in the leader's term, held that prefix of the leader's log; it still does while it is in that term |
| RaftRepair.ExchangeSteps | crates/velcrux-core/src/consensus/mod.rs:625-682 | one exchange is three enabled steps of the cluster in a row: send, deliver, answer |
| RaftRepair.ExchangeProgress | crates/velcrux-core/src/consensus/mod.rs:462-496 | one exchange either makes the logs equal or moves the next index back by one |
| RaftRepair.RepairConverges | crates/velcrux-core/src/consensus/mod.rs:625-682 | from any reachable state at most next_index exchanges lead to a reachable state in which the follower's log equals the leader's |
| RaftProgress.GrantsIff | crates/velcrux-core/src/consensus/mod.rs:378-430 | a vote is granted exactly if the node is in an earlier term, or in the same term without another vote, and its (last term, length) is lexicographically at most the candidate's; and what becomes of every field |
| RaftProgress.ElectionWon | crates/velcrux-core/src/consensus/mod.rs:516-586 | from any reachable state, a node that stands with a majority whose terms and logs are at most its own wins: standing, the deliveries to them and of their replies are enabled and lead to a reachable state in which it leads the next term |
| RaftProgress.AppendAnswers | crates/velcrux-core/src/consensus/mod.rs:433-513 | an append of an old term changes nothing; any other makes the node a follower, and succeeds exactly if the log has the entry it builds on, a conflicting one being cut off |
| RaftProgress.MergeConflict | crates/velcrux-core/src/consensus/mod.rs:485-496 | the first entry that is missing or of another term replaces the log from its position on, with all that follow |
| RaftProgress.MergePresent | crates/velcrux-core/src/consensus/mod.rs:485-496 | entries that are all present leave the log as it is |
| RaftProgress.StepsDown | crates/velcrux-core/src/consensus/mod.rs:545-556 | a vote or reply of a newer term makes any node a follower of it; what is out of date or refused is ignored |
| RaftProgress.ProposeAnswers | crates/velcrux-core/src/consensus/mod.rs:590-622 | only a leader takes a proposal, and answers with the index after its log |
| RaftAvailability.CommitIsLargest | crates/velcrux-core/src/consensus/mod.rs:660-706 | after a reply a leader takes, its commit index is at least every index of its own term that more than half of the members hold, and moves only to such an index |
| RaftAvailability.ServeAll | crates/velcrux-core/src/consensus/mod.rs:625-706 | exchanges with any peers bring all of them to the leader's log and to at least its commit index |
| RaftAvailability.MajorityApplies | crates/velcrux-core/src/consensus/mod.rs:625-722 | from any reachable state, exchanges of a leader with enough peers for a majority, at these nodes only, lead to a reachable state in which it and all of them have committed and applied its whole log |
| RaftAvailability.CommandApplied | crates/velcrux-core/src/consensus/mod.rs:378-722 | from any reachable state in which a majority has neither a later term nor a later log than i, steps at these nodes alone elect i, take a client's command and end with the command applied at each of them |
| Curve25519Field.FeAdd | crates/velcrux-core/src/crypto/pqc.rs:834-842 | limb-wise sum without overflow, of exact value |
| Curve25519Field.FeSub | crates/velcrux-core/src/crypto/pqc.rs:844-854 | no limb underflows and the value is the difference modulo 2^255-19 |
| Curve25519Field.ProductFolds | crates/velcrux-core/src/crypto/pqc.rs:869-878 | the 25 partial products with the upper ones folded by 19 are the product modulo p |
| Curve25519Field.Carry | crates/velcrux-core/src/crypto/pqc.rs:880-901 | the carry pass keeps the value modulo p and brings every limb below 2^51 + 2^14 |
| Curve25519Field.FeMul | crates/velcrux-core/src/crypto/pqc.rs:856-902 | for limbs below 2^54, no u128 or u64 overflow and the product modulo p in tight limbs |
| Curve25519Codec.FeFromBytesValue | crates/velcrux-core/src/crypto/pqc.rs:755-773 | the five overlapping loads read exactly the low 255 bits of the encoded number |
| Curve25519Codec.FeCarry | crates/velcrux-core/src/crypto/pqc.rs:776-799 | a pass of carries changes the value by a multiple of p and leaves it below 2p |
| Curve25519Codec.Reaches | crates/velcrux-core/src/crypto/pqc.rs:801-805 | the carry out of adding 19 says whether the value reaches p |
| Curve25519Codec.FeFinish | crates/velcrux-core/src/crypto/pqc.rs:807-821 | adding 19 q, carrying and dropping the top bit takes p away exactly when the value reached it |
| Curve25519Codec.FeReduce | crates/velcrux-core/src/crypto/pqc.rs:776-821 | the limbs hold the canonical residue |
| Curve25519Codec.FeToBytes | crates/velcrux-core/src/crypto/pqc.rs:775-832 | the bytes written are the little-endian canonical residue modulo p |
| X25519.FeInv | crates/velcrux-core/src/crypto/pqc.rs:908-956 | the addition chain raises to the power p-2 modulo p |
| X25519.FeCswap | crates/velcrux-core/src/crypto/pqc.rs:958-965 | the masked xor swaps both elements when the bit is 1 and leaves them otherwise |
| X25519.LadderStep | crates/velcrux-core/src/crypto/pqc.rs:990-1003 | one round computes the ladder formulas of section 5 of RFC 7748 modulo p |
| X25519.Double | crates/velcrux-core/src/crypto/pqc.rs:990-1003 | the doubling half of a round |
| X25519.DifferentialAdd | crates/velcrux-core/src/crypto/pqc.rs:995-1001 | the differential addition half of a round |
| X25519.ClampRange | crates/velcrux-core/src/crypto/pqc.rs:969-972 | a clamped scalar is a multiple of 8 in [2^254, 2^255) |
| X25519.ClampKeeps | crates/velcrux-core/src/crypto/pqc.rs:969-972 | clamping keeps the bits 3 to 253 as they are |
| X25519.ScalarMultBytes | crates/velcrux-core/src/crypto/pqc.rs:968-1011 | for every scalar and point the output is the canonical encoding of the RFC 7748 ladder over the integers modulo 2^255-19 |
| X25519Multiples.RungIsCurve | crates/velcrux-core/src/crypto/pqc.rs:986-1003 | one round doubles (x : z) to ((x^2-z^2)^2 : 4xz(x^2+486662xz+z^2)) and adds the two points by the differential addition of the curve |
| X25519Multiples.LadderIsMultiple | crates/velcrux-core/src/crypto/pqc.rs:968-1003 | for every scalar below 2^255 the ladder ends with numerator and denominator of that multiple of the point, defined by doubling and adding alone, up to a common power of 4u |
| X25519Multiples.ScalarMultIs | crates/velcrux-core/src/crypto/pqc.rs:968-1011 | given that p obeys Fermat's little theorem, the result times the multiple's denominator is its numerator modulo p, and zero where there is no such quotient |
| PolynomialRing.TimesCommutes | crates/velcrux-core/src/crypto/pqc.rs:112-135 | the negacyclic product commutes |
| PolynomialRing.TimesAssociates | crates/velcrux-core/src/crypto/pqc.rs:112-135 | it associates |
| PolynomialRing.TimesPlus | crates/velcrux-core/src/crypto/pqc.rs:112-135 | it distributes over addition |
| PolynomialRing.TimesEquiv | crates/velcrux-core/src/crypto/pqc.rs:112-135 | a factor may be reduced modulo q before multiplying |
| PolynomialRing.ReducedAssociates | crates/velcrux-core/src/crypto/pqc.rs:112-135 | the product with reduction after every multiplication associates |
| PolynomialRing.ReducedDistributes | crates/velcrux-core/src/crypto/pqc.rs:95-135 | and distributes over reduced addition |
| PolynomialVectors.Adjoint | crates/velcrux-core/src/crypto/pqc.rs:393-403 | (A s) . r = s . (A^T r) for every matrix of polynomials |
| MlKemPoly.Add | crates/velcrux-core/src/crypto/pqc.rs:95-101 | the loop computes the sum reduced modulo q |
| MlKemPoly.Sub | crates/velcrux-core/src/crypto/pqc.rs:104-110 | the loop computes the difference reduced modulo q |
| MlKemPoly.MulNegacyclic | crates/velcrux-core/src/crypto/pqc.rs:114-135 | the double loop with its sign change past index 255 computes the product in Z_q[X]/(X^256+1) |
| MlKemPacking.Unpack12Pack12 | crates/velcrux-core/src/crypto/pqc.rs:138-165 | 12-bit packing is lossless |
| MlKemPacking.Pack12Unpack12 | crates/velcrux-core/src/crypto/pqc.rs:138-165 | and onto: every 384-byte string is the packing of what it unpacks to |
| MlKemPacking.Unpack10Pack10 | crates/velcrux-core/src/crypto/pqc.rs:181-226 | 10-bit packing of compressed coefficients is lossless |
| MlKemPacking.Unpack4Pack4 | crates/velcrux-core/src/crypto/pqc.rs:229-254 | 4-bit packing of compressed coefficients is lossless |
| MlKemPacking.RoundError10 | crates/velcrux-core/src/crypto/pqc.rs:181-226 | compressing to 10 bits and back moves a coefficient by at most 2 modulo 3329 |
| MlKemPacking.RoundError4 | crates/velcrux-core/src/crypto/pqc.rs:229-254 | compressing to 4 bits and back moves it by at most 104 |
| MlKemCodec.ToBytes12 | crates/velcrux-core/src/crypto/pqc.rs:138-148 | the masks and shifts write the packing |
| MlKemCodec.FromBytes12 | crates/velcrux-core/src/crypto/pqc.rs:151-165 | the masks and shifts read the packing, reduced modulo q |
| MlKemCodec.ToBytes10 | crates/velcrux-core/src/crypto/pqc.rs:181-203 | writes the packed compressed coefficients |
| MlKemCodec.FromBytes10 | crates/velcrux-core/src/crypto/pqc.rs:206-226 | reads and decompresses them |
| MlKemCodec.ToBytes4 | crates/velcrux-core/src/crypto/pqc.rs:229-240 | writes the packed compressed coefficients |
| MlKemCodec.FromBytes4 | crates/velcrux-core/src/crypto/pqc.rs:243-254 | reads and decompresses them |
| MlKemMessage.FromMsg | crates/velcrux-core/src/crypto/pqc.rs:168-178 | coefficient k is half of q when bit k is set and zero otherwise |
| MlKemMessage.ToMsg | crates/velcrux-core/src/crypto/pqc.rs:257-278 | the message whose bits are read off the coefficients by the distance threshold |
| MlKemMessage.DecodedBit | crates/velcrux-core/src/crypto/pqc.rs:257-278 | bit k of the decoded message is what coefficient k stands for |
| MlKemMessage.SameBits | crates/velcrux-core/src/crypto/pqc.rs:257-278 | a message is determined by its 256 bits |
| MlKemScheme.SamplePoly | crates/velcrux-core/src/crypto/pqc.rs:282-298 | coefficients are little-endian 16-bit words of the stream modulo q |
| MlKemScheme.SampleNoise | crates/velcrux-core/src/crypto/pqc.rs:301-322 | coefficients are 0, 1 or q-1 by the stream byte modulo 3 |
| MlKemScheme.InnerProduct | crates/velcrux-core/src/crypto/pqc.rs:393-403 | the accumulation loop computes the inner product modulo q |
| MlKemScheme.SampleMatrix | crates/velcrux-core/src/crypto/pqc.rs:370-379 | row r, column c is entry 3r+c of the matrix |
| MlKemScheme.SampleTransposed | crates/velcrux-core/src/crypto/pqc.rs:445-454 | the same entries, transposed |
| MlKemScheme.RowsTimes | crates/velcrux-core/src/crypto/pqc.rs:467-477 | matrix times vector plus error, reduced |
| MlKemScheme.Mask | crates/velcrux-core/src/crypto/pqc.rs:479-490 | t . r + e2 + message, reduced |
| MlKemScheme.KeyGen | crates/velcrux-core/src/crypto/pqc.rs:363-424 | the byte buffers hold the packed A s + e with rho, and the packed s with public key and seed |
| MlKemScheme.Encapsulate | crates/velcrux-core/src/crypto/pqc.rs:427-510 | ciphertext and secret are those of the value-level encapsulation |
| MlKemScheme.Decapsulate | crates/velcrux-core/src/crypto/pqc.rs:513-558 | the secret is that of the value-level decapsulation |
| MlKemAgreement.UnpackVec12PackVec12 | crates/velcrux-core/src/crypto/pqc.rs:405-411 | packed key vectors are read back exactly |
| MlKemAgreement.Received | crates/velcrux-core/src/crypto/pqc.rs:492-499 | the receiver sees the sender's polynomials rounded to 10 and 4 bits |
| MlKemAgreement.Unmasks | crates/velcrux-core/src/crypto/pqc.rs:538-546 | v - s.u equals the message polynomial plus e.r + e2 - s.(e1 + rounding) + rounding, modulo q |
| MlKemAgreement.DecodesIff | crates/velcrux-core/src/crypto/pqc.rs:263-272 | a coefficient decodes to its bit exactly when its centred noise is in the tolerated range |
| MlKemAgreement.RecoversIff | crates/velcrux-core/src/crypto/pqc.rs:363-558 | for all seeds and all hash functions the receiver recovers the message if and only if every coefficient's noise is tolerated |
| MlKemAgreement.SecretsAgree | crates/velcrux-core/src/crypto/pqc.rs:501-557 | then both secrets are equal, and only then if the key derivation separates messages |
| MlKemFormats.TimesX | crates/velcrux-core/src/crypto/pqc.rs:115-140 | multiplying by X shifts the coefficients up and brings the highest back negated |
| MlKemFormats.SampledWords | crates/velcrux-core/src/crypto/pqc.rs:292-296 | each coefficient of a matrix polynomial is a little-endian 16-bit word modulo 3329 |
| MlKemFormats.SampledNoise | crates/velcrux-core/src/crypto/pqc.rs:312-321 | each coefficient of a noise polynomial is -1, 0 or 1 and congruent to its byte modulo 3 |
| MlKemFormats.Pack12IsNumber | crates/velcrux-core/src/crypto/pqc.rs:142-154 | the packed bytes are the little-endian number with the coefficients as base-4096 digits |
| MlKemFormats.Pack10IsNumber | crates/velcrux-core/src/crypto/pqc.rs:185-212 | the same with base-1024 digits |
| MlKemFormats.Pack4IsNumber | crates/velcrux-core/src/crypto/pqc.rs:238-251 | the same with base-16 digits |
| MlKemFormats.RoundsToNearest | crates/velcrux-core/src/crypto/pqc.rs:188-260 | compression and decompression round to a nearest integer |
| MlKemFormats.MessageBits | crates/velcrux-core/src/crypto/pqc.rs:172-183 | bit k of a message is bit k of the number its bytes stand for |
| MlKemFormats.PublicKeyLayout | crates/velcrux-core/src/crypto/pqc.rs:405-411 | a public key is the three polynomials of t and then rho |
| MlKemFormats.PrivateKeyLayout | crates/velcrux-core/src/crypto/pqc.rs:413-421 | a private key is the three polynomials of s, the public key, the seed and 32 zero bytes |
| MlKemFormats.CiphertextLayout | crates/velcrux-core/src/crypto/pqc.rs:490-497 | a ciphertext is the three compressed polynomials of u and then that of v |
| MlKemFormats.KeyEquation | crates/velcrux-core/src/crypto/pqc.rs:367-403 | t_i = A_i0 s_0 + A_i1 s_1 + A_i2 s_2 + e_i modulo q, with the stream index of every term |
| MlKemFormats.MaskEquation | crates/velcrux-core/src/crypto/pqc.rs:444-475 | u_i = A_0i r_0 + A_1i r_1 + A_2i r_2 + e1_i: the matrix is used transposed |
| MlKemFormats.MessageEquation | crates/velcrux-core/src/crypto/pqc.rs:477-488 | v = t . r + e2 plus half of q at every set bit of the message |
| MlKemFormats.SecretBinds | crates/velcrux-core/src/crypto/pqc.rs:499-557 | under a derivation that confuses no inputs, the receiver's secret is the sender's exactly for the sender's ciphertext and the recovered message |
| MlKemAgreement.RoundingIsSmall | crates/velcrux-core/src/crypto/pqc.rs:181-254 | the rounding terms are at most 2 and 104 in centred size |
| MlKemDisagreement.CanDisagree | crates/velcrux-core/src/crypto/pqc.rs:427-558 | decapsulation does not undo encapsulation for every outcome of the sampling: a concrete exchange whose secrets differ |
| Gf256Field.OrderIs255 | crates/velcrux-core/src/transport/fec.rs:25-54 | no power of x below the 255th is 1 modulo 0x11d |
| Gf256Field.HasLog | crates/velcrux-core/src/transport/fec.rs:34-54 | every non-zero byte is a power of x |
| Gf256Field.InitTables | crates/velcrux-core/src/transport/fec.rs:34-54 | the one-pass loop fills exp with the powers of x, doubled for wrap-around, and log with the discrete logarithm |
| Gf256Field.TableMulIsProduct | crates/velcrux-core/src/transport/fec.rs:66-75 | the table product is carry-less multiplication modulo 0x11d |
| Gf256Field.TableDivUndoes | crates/velcrux-core/src/transport/fec.rs:77-92 | the table quotient times the divisor is the dividend |
| Gf256Field.TimesTwo | crates/velcrux-core/src/transport/fec.rs:25-26 | multiplying by x doubles and takes off 0x11d where the result has nine bits |
| Gf256.AddAssociates | crates/velcrux-core/src/transport/fec.rs:56-64 | addition associates |
| Gf256Field.ProductCommutes | crates/velcrux-core/src/transport/fec.rs:66-75 | multiplication commutes |
| Gf256Field.ProductAssociates | crates/velcrux-core/src/transport/fec.rs:66-75 | it associates |
| Gf256Field.ProductAdds | crates/velcrux-core/src/transport/fec.rs:56-75 | it distributes over xor |
| Gf256Field.ProductNonZero | crates/velcrux-core/src/transport/fec.rs:66-75 | there are no zero divisors |
| Gf256Field.InverseIs | crates/velcrux-core/src/transport/fec.rs:89-92 | gf_inv is a multiplicative inverse |
| GfMatrix.Matrix.constructor | crates/velcrux-core/src/transport/fec.rs:106-112 | all entries are zero |
| GfMatrix.Matrix.Get | crates/velcrux-core/src/transport/fec.rs:114-117 | the entry at row r, column c |
| GfMatrix.Matrix.Set | crates/velcrux-core/src/transport/fec.rs:119-122 | changes exactly that entry of the flat buffer |
| GfMatrix.Matrix.Augment | crates/velcrux-core/src/transport/fec.rs:147-154 | [A | I] |
| GfMatrix.Matrix.FindPivot | crates/velcrux-core/src/transport/fec.rs:158-165 | the first non-zero entry at or below the diagonal, or none |
| GfMatrix.Matrix.SwapRows | crates/velcrux-core/src/transport/fec.rs:167-174 | exchanges two rows |
| GfMatrix.Matrix.NormalizeRow | crates/velcrux-core/src/transport/fec.rs:176-181 | scales one row |
| GfMatrix.Matrix.EliminateRow | crates/velcrux-core/src/transport/fec.rs:183-193 | adds a multiple of the pivot row |
| GfMatrix.Matrix.ClearColumn | crates/velcrux-core/src/transport/fec.rs:183-194 | clears the pivot column everywhere else |
| GfMatrix.Matrix.Invert | crates/velcrux-core/src/transport/fec.rs:141-206 | the result is a two-sided inverse; None only for a matrix that takes a non-zero vector to zero |
| GfLinear.StepSolves | crates/velcrux-core/src/transport/fec.rs:157-195 | one column of the elimination keeps the solutions of the system |
| GfLinear.StepEliminates | crates/velcrux-core/src/transport/fec.rs:157-195 | and turns one more column into that of the identity |
| GfInverse.Finished | crates/velcrux-core/src/transport/fec.rs:197-206 | an elimination that reached the end leaves the inverse in the right half |
| GfInverse.Stuck | crates/velcrux-core/src/transport/fec.rs:158-165 | a column without pivot gives a non-zero vector in the kernel |
| GfCauchy.Vanishes | crates/velcrux-core/src/transport/fec.rs:124-139 | a vector annihilated by as many Cauchy rows as it has non-zero entries is zero |
| GfCauchy.SelectionRegular | crates/velcrux-core/src/ec/engine.rs:372-385 | any K distinct rows of [I ; Cauchy] are independent, for every K + M up to 256 |
| GfCauchy.CauchyEntry | crates/velcrux-core/src/transport/fec.rs:127-139 | entry (x, j) is the inverse of x xor (m + j) |
| ErasureShards.Systematic | crates/velcrux-core/src/ec/engine.rs:263-274 | the first K shards are the padded data |
| ErasureShards.Joins | crates/velcrux-core/src/ec/engine.rs:407-412 | concatenating the data shards and cutting to the object's length gives the object |
| ErasureShards.ShardSize | crates/velcrux-core/src/ec/engine.rs:253-260 | the least size with which K shards hold the object, one byte for an empty object |
| ErasureEngine.NewSchema | crates/velcrux-core/src/ec/engine.rs:33-48 | accepts exactly K, M >= 1 with K + M <= 256 |
| ErasureEngine.CauchyMatrix | crates/velcrux-core/src/transport/fec.rs:127-139 | entry (i, j) is the inverse of i xor (rows + j) |
| ErasureEngine.Combine | crates/velcrux-core/src/ec/engine.rs:279-294 | the accumulation loop computes one linear combination per byte position |
| ErasureEngine.Slice | crates/velcrux-core/src/ec/engine.rs:263-274 | one zero-padded slice of the object |
| ErasureEngine.ParityShards | crates/velcrux-core/src/ec/engine.rs:276-294 | every parity byte is the Cauchy row applied to the data bytes at its position |
| ErasureEngine.Encode | crates/velcrux-core/src/ec/engine.rs:247-318 | the K + M envelopes, data first, each shard being its generator row applied to the data |
| ErasureDecode.Gather | crates/velcrux-core/src/ec/engine.rs:328-336 | the intact shards with the index they are taken for |
| ErasureDecode.GatheredIs | crates/velcrux-core/src/ec/engine.rs:328-336 | each gathered shard is an intact one, taken for the smaller of its slot and its own index |
| ErasureDecode.ExchangedFails | crates/velcrux-core/src/ec/engine.rs:333-333 | so two data shards in each other's slots are not decoded |
| ErasureDecode.HasAllData | crates/velcrux-core/src/ec/engine.rs:349-356 | whether every data index is present |
| ErasureDecode.JoinData | crates/velcrux-core/src/ec/engine.rs:358-366 | the payloads of the data shards in order |
| ErasureDecode.FillSelection | crates/velcrux-core/src/ec/engine.rs:372-385 | the generator rows of the selected shards |
| ErasureDecode.InvertibleIff | crates/velcrux-core/src/ec/engine.rs:372-390 | the selected generator rows can be inverted exactly when no index is selected twice |
| ErasureDecode.ColumnUsed | crates/velcrux-core/src/ec/engine.rs:392-405 | every column of an inverse has a non-zero factor, so every selected payload is read |
| ErasureDecode.ReadsPastEnd | crates/velcrux-core/src/ec/engine.rs:394-405 | multiplying out runs past a payload exactly when one is too short |
| ErasureDecode.Reconstruct | crates/velcrux-core/src/ec/engine.rs:368-405 | the recovered parts are the only solution of the selected rows' system; inversion fails exactly when an index is selected twice, and a payload is read past its end exactly when one is shorter than the first |
| ErasureDecode.Decode | crates/velcrux-core/src/ec/engine.rs:321-415 | fails exactly with too few intact shards, an index past the generator, an index selected twice or a short payload, each its own way; with K or more intact shards, for every object they encode, exactly that object, on both paths |
| ErasureDecode.PlacedCount | crates/velcrux-core/src/ec/engine.rs:422-428 | as many shards reach the decoder as there are distinct intact ones in the list |
| ErasureDecode.ReconstructAll | crates/velcrux-core/src/ec/engine.rs:418-440 | from intact shards for K slots the complete original set of envelopes |
| ErasureEnvelope.RoundTripIff | crates/velcrux-core/src/ec/engine.rs:122-222 | an envelope is read back as itself exactly when its lengths, index and size fit their widths and its checksum holds |
| ErasureEnvelope.AcceptedIsEncoding | crates/velcrux-core/src/ec/engine.rs:143-222 | whatever is accepted is, up to trailing bytes, the encoding of what was read |
| ErasureEnvelope.EncodedSurvives | crates/velcrux-core/src/ec/engine.rs:121-222 | every shard the encoder makes is read back |
| ErasureEnvelope.Layout | crates/velcrux-core/src/ec/engine.rs:122-140 | where each field of an envelope stands, numbers in big-endian order |
| ErasureEnvelope.MagicSpells | crates/velcrux-core/src/ec/engine.rs:18-18 | the first four bytes spell VEC1 |
| Chunking.Splits | crates/velcrux-core/src/chunking/mod.rs:167-197 | feeding a stream in two stretches gives the state and cuts of feeding it at once |
| Chunking.Tiles | crates/velcrux-core/src/chunking/mod.rs:298-349 | chunk lengths and the open remainder add up to the bytes taken in |
| Chunking.Bounds | crates/velcrux-core/src/chunking/mod.rs:306-324 | every cut length lies between the rule's bounds |
| ChunkResync.Forgets | crates/velcrux-core/src/chunking/mod.rs:306-311 | a hash mixed by 2^e modulo 2^(e w) forgets all but the last w bytes |
| ChunkResync.SameHash | crates/velcrux-core/src/chunking/fastcdc.rs:119-123 | hashes started differently are equal once a full window is read: 8 bytes for Rolling, 64 hashed bytes for FastCDC |
| ChunkResync.Resynchronises | crates/velcrux-core/src/chunking/fastcdc.rs:119-147 | where one stream cuts on the hash of a full shared window and the other is past its minimum, both cut, and they cut alike from then on |
| ChunkResync.SharedCutCoincides | crates/velcrux-core/src/chunking/mod.rs:314-323 | two streams with a cut, or their start, where a shared suffix starts are cut alike from there on |
| ChunkCuts.FirstCut | crates/velcrux-core/src/chunking/fastcdc.rs:95-151 | the first chunk ends at the least length that fits, in terms of the parameters and the bytes alone, masks changing at the target, and the rest is cut as a stream of its own |
| ChunkCuts.NoCut | crates/velcrux-core/src/chunking/mod.rs:299-326 | where no length fits there is no cut |
| Chunkers.FixedChunker.constructor | crates/velcrux-core/src/chunking/mod.rs:156-163 | a fresh chunker |
| Chunkers.FixedChunker.Push | crates/velcrux-core/src/chunking/mod.rs:167-197 | jumping block by block emits the boundaries of the byte-by-byte rule; errors after finish and for size 0 |
| Chunkers.FixedChunker.Finish | crates/velcrux-core/src/chunking/mod.rs:198-213 | the trailing chunk, once |
| Chunkers.FloorLog2 | crates/velcrux-core/src/chunking/mod.rs:269-274 | the position of the highest bit of the target |
| Chunkers.RollingChunker.constructor | crates/velcrux-core/src/chunking/mod.rs:268-290 | the mask has as many ones as the target has bits below its highest, at least 1 and at most 32 |
| Chunkers.RollingChunker.Push | crates/velcrux-core/src/chunking/mod.rs:299-326 | emits the boundaries of the rolling-hash rule |
| Chunkers.RollingChunker.Finish | crates/velcrux-core/src/chunking/mod.rs:327-343 | the trailing chunk, once |
| Chunkers.FastCdcChunker.constructor | crates/velcrux-core/src/chunking/fastcdc.rs:51-79 | the strict mask is one bit longer and the loose one a bit shorter than the target |
| Chunkers.FastCdcChunker.Push | crates/velcrux-core/src/chunking/fastcdc.rs:95-151 | skipping and the two nested loops emit the boundaries of the byte-by-byte rule |
| Chunkers.FastCdcChunker.Finish | crates/velcrux-core/src/chunking/fastcdc.rs:153-169 | the trailing chunk, once |
| Chunkers.Contiguous | crates/velcrux-core/src/chunking/mod.rs:188-193 | boundaries are emitted back to back |
| ChunkReader.IsAllZeros | crates/velcrux-core/src/chunking/mod.rs:367-375 | true exactly when every byte is zero |
| ChunkReader.CreateChunker | crates/velcrux-core/src/chunking/mod.rs:356-362 | a fresh chunker with the rule of the mode |
| ChunkReader.Drain | crates/velcrux-core/src/chunking/mod.rs:418-432 | every slice of the pending buffer is in bounds and the chunks handed out are the next pieces of the stream |
| ChunkReader.ReadOnce | crates/velcrux-core/src/chunking/mod.rs:408-433 | one read keeps the reader's progress invariant; before and after it less than one longest chunk is pending, namely the open chunk |
| ChunkReader.LastChunk | crates/velcrux-core/src/chunking/mod.rs:435-447 | the remainder is handed out as the trailing chunk |
| ChunkReader.ChunkAll | crates/velcrux-core/src/chunking/mod.rs:391-451 | for every sequence of reads the chunks are the pieces of the whole stream cut at once and lengths sum to the total; after every read the pending buffer holds exactly the open chunk and the bytes just read, less than the longest chunk plus one read |
| ChunkGuarantees.NewParams | crates/velcrux-core/src/chunking/mod.rs:74-85 | accepts exactly a positive fixed size or min < target < max |
| ChunkGuarantees.CdcParams | crates/velcrux-core/src/chunking/mod.rs:97-102 | accepts exactly 0 < min < target < max |
| ChunkGuarantees.ChunkSizes | crates/velcrux-core/src/chunking/fastcdc.rs:6-10 | non-final lengths equal the target (Fixed), lie in [min, max] (Rolling, a fixed size included) or [min+1, max] (FastCDC with min < max); the last is positive and within the upper bound |
| ChunkGuarantees.AcceptedIsBounded | crates/velcrux-core/src/chunking/mod.rs:74-85 | of the accepted settings, only FastCDC with one fixed size is outside that guarantee |
| ChunkGuarantees.Reassembles | crates/velcrux-core/src/chunking/mod.rs:391-451 | payloads concatenate to the stream, and a chunk is a hole exactly when all its bytes are zero |
| ChunkGuarantees.FastWithinMaxIff | crates/velcrux-core/src/chunking/fastcdc.rs:104-147 | FastCDC keeps every chunk within max if and only if min < max |
| ChunkGuarantees.FixedSizeOvershoots | crates/velcrux-core/src/chunking/mod.rs:74-85 | for the accepted setting min = target = max FastCDC cuts at max + 1 |
| MerkleProofs.PathLeadsToRoot | crates/velcrux-core/src/audit/mod.rs:320-384 | for every size and index the generated path leads to the root and has height - 1 steps |
| MerkleProofs.SmallRoots | crates/velcrux-core/src/audit/mod.rs:286-312 | the roots of one, two and three leaves, in terms of the combination |
| MerkleProofs.LevelUp | crates/velcrux-core/src/audit/mod.rs:297-308 | node j of the level above combines nodes 2j and 2j+1 in this order |
| MerkleProofs.FirstStep | crates/velcrux-core/src/audit/mod.rs:340-374 | the first step of a path names the other child and its side |
| MerkleProofs.AcceptedIsPresent | crates/velcrux-core/src/audit/mod.rs:168-177 | with an injective combination, a path of that length that reaches the root starts from the leaf at the position it spells, odd duplicates included |
| MerkleProofs.ShortPathIff | crates/velcrux-core/src/audit/mod.rs:168-177 | a path of n steps, shorter than the tree is high, is accepted exactly for the nodes n steps below the root, so an interior node passes as an included leaf |
| MerkleProofs.LongPathIff | crates/velcrux-core/src/audit/mod.rs:168-177 | a longer path is accepted exactly where its extra steps lead to a leaf |
| MerkleProofs.PathSpells | crates/velcrux-core/src/audit/mod.rs:340-374 | a generated path spells its own leaf's position |
| MerkleProofs.HeightIsLeast | crates/velcrux-core/src/audit/mod.rs:271-283 | the height is the smallest whose full tree has room for the leaves |
| MerkleAuditTree.VerifyInclusionProof | crates/velcrux-core/src/audit/mod.rs:168-177 | accepts exactly when leaf and path lead to the expected root |
| MerkleAuditTree.VerifyExclusionProof | crates/velcrux-core/src/audit/mod.rs:182-218 | accepts exactly when the present bounds verify on their sides of the target against the same root and, if both are present, have consecutive indices |
| MerkleAuditTree.BinarySearch | crates/velcrux-core/src/audit/mod.rs:251-254 | finds the target or the point that splits the index |
| MerkleAuditTree.NextLevel | crates/velcrux-core/src/audit/mod.rs:297-308 | the level above, an odd end paired with itself |
| MerkleAuditTree.AuditTree.constructor | crates/velcrux-core/src/audit/mod.rs:229-235 | an empty tree with an empty index |
| MerkleAuditTree.AuditTree.InsertLeaf | crates/velcrux-core/src/audit/mod.rs:246-258 | appends the leaf and keeps the index a sorted permutation of the (leaf, position) pairs |
| MerkleAuditTree.AuditTree.TreeHeight | crates/velcrux-core/src/audit/mod.rs:271-283 | the number of levels |
| MerkleAuditTree.AuditTree.RootHash | crates/velcrux-core/src/audit/mod.rs:286-312 | the root of the leaves, or the empty root |
| MerkleAuditTree.AuditTree.GenerateInclusionProof | crates/velcrux-core/src/audit/mod.rs:320-384 | the proof for the leaf, or an error exactly when the index is out of bounds |
| MerkleAuditTree.AuditTree.GenerateExclusionProof | crates/velcrux-core/src/audit/mod.rs:387-434 | fails on a non-empty tree exactly when the target is present; otherwise the bounds are the nearest leaves on either side |
| MerkleAuditTree.ProofVerifies | crates/velcrux-core/src/audit/mod.rs:320-384 | every proof handed out verifies |
| MerkleAuditTree.NearestVerifiesIff | crates/velcrux-core/src/audit/mod.rs:182-218 | a generated exclusion proof verifies if and only if a bound is missing or the bounds' insertion indices are consecutive |
| MerkleAuditTree.AscendingVerifies | crates/velcrux-core/src/audit/mod.rs:387-434 | with leaves inserted in ascending order every generated exclusion proof verifies |
| MerkleExclusion.AllVerifyIff | crates/velcrux-core/src/audit/mod.rs:387-434 | for an absent target, every proof that can be generated verifies if and only if the nearest leaves below and above it were inserted one right after the other |
| MerkleExclusion.DistinctVerifiesIff | crates/velcrux-core/src/audit/mod.rs:387-434 | with distinct leaves the same condition on leaves and target decides the generated proof |
| MerkleExclusion.OutOfOrderRejected | crates/velcrux-core/src/audit/mod.rs:206-215 | with leaves 9 and 1 in that order, the proof generated for 5 is rejected |
| MerkleExclusion.TwoBoundsAcceptedIff | crates/velcrux-core/src/audit/mod.rs:179-218 | all that the code accepts with two bounds is absent if and only if no leaf lies strictly between two digests from which any path leads to the root |
| MerkleExclusion.TwoBoundsWithinTreeIff | crates/velcrux-core/src/audit/mod.rs:179-218 | with paths no longer than the tree is high, if and only if no leaf lies strictly between two nodes of the tree |
| MerkleExclusion.TwoBoundsFullPathsIff | crates/velcrux-core/src/audit/mod.rs:179-218 | with paths of full length and the indices merely claimed, if and only if no leaf lies strictly between two others |
| MerkleExclusion.PresentWithClaimedIndex | crates/velcrux-core/src/audit/mod.rs:208-213 | on the ascending leaves 1, 5, 9 the present leaf 5 is accepted as absent between 1 and 9 claimed at indices 0 and 1 |
| MerkleExclusion.AcceptedMeansAbsent | crates/velcrux-core/src/audit/mod.rs:179-218 | for a caller who also checks that paths have full length and spell the claimed indices: with an injective combination and no leaf strictly between consecutive ones, acceptance with both bounds means that the target is absent |
| MerkleExclusion.AscendingMeansAbsent | crates/velcrux-core/src/audit/mod.rs:179-218 | so it does, with those checks, for every tree whose leaves were inserted in ascending order |
| MerkleExclusion.TwoBoundsSoundIff | crates/velcrux-core/src/audit/mod.rs:179-218 | for such a caller, acceptance with two bounds confirms absence for every target if and only if no leaf lies strictly between two consecutive ones |
| MerkleExclusion.OneBoundSoundIff | crates/velcrux-core/src/audit/mod.rs:179-218 | with paths of full length, acceptance with one bound alone confirms absence if and only if all leaves are equal |
| MerkleExclusion.OneBoundAcceptedIff | crates/velcrux-core/src/audit/mod.rs:179-218 | all that the code accepts with one bound is absent if and only if every digest from which a path leads to the root equals every leaf |
| MerkleExclusion.PresentWithOneBound | crates/velcrux-core/src/audit/mod.rs:179-218 | on leaves 1, 5 the present leaf 5 is accepted as absent with a lower bound alone |
| MerkleExclusion.PresentWithTwoBounds | crates/velcrux-core/src/audit/mod.rs:179-218 | on leaves 1, 9, 5 the present leaf 5 is accepted as absent between two genuine consecutive bounds |
| Base58.MulAdd | crates/velcrux-core/src/did/did.rs:30-42 | one pass of the carry loop multiplies the number in the buffer by the base and adds the digit, losing nothing when it fits |
| Base58Capacity.Fits58 | crates/velcrux-core/src/did/did.rs:27-28 | 256^n <= 58^(n*138/100+1) for every n |
| Base58Capacity.Fits256 | crates/velcrux-core/src/did/did.rs:67-68 | 58^n <= 256^(n*733/1000+1) for every n |
| Base58.SymbolIff | crates/velcrux-core/src/did/did.rs:17-18 | the alphabet is the ASCII digits and letters without 0, O, I and l |
| Base58.SymbolsAscend | crates/velcrux-core/src/did/did.rs:17-18 | in ascending order |
| Base58.Encode | crates/velcrux-core/src/did/did.rs:21-57 | leading zeros become ones and the rest is the number in base 58 |
| Base58.Decode | crates/velcrux-core/src/did/did.rs:60-97 | the inverse reading, or None exactly when a character is outside the alphabet |
| Base58.DecodeEncode | crates/velcrux-core/src/did/did.rs:20-97 | decoding undoes encoding for every byte string |
| Base58.EncodeDecode | crates/velcrux-core/src/did/did.rs:59-97 | encoding undoes decoding for every string over the alphabet |
| Did.DidFromKey | crates/velcrux-core/src/did/did.rs:136-148 | the prefix and the tagged key in Base58 |
| Did.Resolve | crates/velcrux-core/src/did/did.rs:174-228 | the key and a document that is about the identifier, holds the key in its one verification method and names only that method; or the first error in the order of the checks |
| Did.ResolveFromKey | crates/velcrux-core/src/did/did.rs:136-202 | resolving an identifier made from any key gives the key |
| Did.ResolvedIsFromKey | crates/velcrux-core/src/did/did.rs:174-202 | an identifier that resolves is the one made from its key |
| Did.ResolvesIff | crates/velcrux-core/src/did/did.rs:136-202 | exactly the identifiers made from keys resolve |
| Did.PrefixesSpell | crates/velcrux-core/src/did/did.rs:144-206 | the prefixes and the key fragment spell did:key:z, did:peer:0z and #key-1 |
| Credentials.PlainAdmits | crates/velcrux-core/src/did/did.rs:586-597 | a pattern without a final star admits itself and nothing else |
| Credentials.StarAdmits | crates/velcrux-core/src/did/did.rs:586-597 | a pattern q* admits exactly the extensions of q; a lone star, or one after a slash, admits everything |
| Credentials.OperationAdmits | crates/velcrux-core/src/did/did.rs:606-619 | an allowed operation is a star or the requested one up to the case of ASCII letters |
| Credentials.PlainVerifies | crates/velcrux-core/src/did/did.rs:584-604 | a credential that otherwise verifies and has only plain patterns grants the paths in its list and answers PathDenied for every other |
| Credentials.FirstFailure | crates/velcrux-core/src/did/did.rs:538-673 | which error is answered: dates, proof, path, operation, then the link to the parent and the parent |
| Credentials.IssueIff | crates/velcrux-core/src/did/did.rs:410-463 | a credential is issued exactly when it has no parent or obeys every delegation rule |
| Credentials.PatternContainsIff | crates/velcrux-core/src/did/did.rs:651-668 | textual containment of path patterns means containment of what they admit exactly for parent patterns that do not end in two stars |
| Credentials.NarrowsIff | crates/velcrux-core/src/did/did.rs:651-668 | for a list of parent patterns, textual containment means containment of what is admitted if and only if, for each pattern q** in it, the list admits all that q* admits |
| Credentials.OnlyShorterEscapes | crates/velcrux-core/src/did/did.rs:651-668 | what a pattern q** contains as text it also contains in what it admits, except for q* alone |
| Credentials.PlainCovers | crates/velcrux-core/src/did/did.rs:651-668 | the condition holds if for each pattern q** some other pattern, not ending in two stars, contains q*; so for every list without such patterns |
| Credentials.DelegationNarrowsIff | crates/velcrux-core/src/did/did.rs:621-673 | for a holder who can sign, every accepted credential directly below one of theirs stays within it if and only if that one does not verify, may not be delegated, or has patterns that meet the condition |
| Credentials.DescendantsNarrowIff | crates/velcrux-core/src/did/did.rs:621-673 | the same condition decides whether every accepted descendant, at any depth, stays within the credential |
| Credentials.AncestorDelegable | crates/velcrux-core/src/did/did.rs:621-673 | every credential above an accepted one itself verifies and may be delegated |
| Credentials.AcceptedEscalation | crates/velcrux-core/src/did/did.rs:391-673 | for any two identities that can sign, a chain that the code issues and accepts, whose leaf is granted /ax while its root, with /a**, denies it |
| Credentials.AcceptedIff | crates/velcrux-core/src/did/did.rs:538-689 | verification accepts exactly when the leaf admits the request, every credential in the chain is current and proved, and each delegated the next: subject, positive depth, operations, paths |
| Credentials.PathsAttenuate | crates/velcrux-core/src/did/did.rs:586-673 | in every accepted chain of any length, every path the leaf admits is admitted by each ancestor whose own list meets that condition, whatever the lists in between |
| Credentials.OperationsAttenuate | crates/velcrux-core/src/did/did.rs:606-649 | and so is every operation, without condition |
| Credentials.DepthCounts | crates/velcrux-core/src/did/did.rs:621-673 | the reported depth is the number of ancestors |
| Credentials.IssueKeepsIssued | crates/velcrux-core/src/did/did.rs:410-463 | issuing on an issued chain gives an issued chain: depth strictly falls, expiry, operations and paths are contained |
| Credentials.IssuedIsShort | crates/velcrux-core/src/did/did.rs:411-429 | an issued chain is no longer than the root's delegation depth and does not outlive the root |
| Credentials.VerifyingBoundsNoChain | crates/velcrux-core/src/did/did.rs:621-673 | verifying alone does not bound a chain: whoever can sign has accepted chains of every length below a root of delegation depth one |
| Credentials.IssuedVerifiesIff | crates/velcrux-core/src/did/did.rs:391-689 | a freshly issued credential verifies if and only if its parent, if any, was granted to its issuer and itself verifies |

## Left out

- `RaftCoordinator::commit_index_to`, which moves the commit index without a quorum and is not a protocol step.
- Crash and restart of Raft nodes, lock ordering between the coordinator's fields, timers, and the width of terms and
  indices, which are unbounded here.
- Statistics counters and heartbeat instants.
- Raft entries with index 0, which the type of positions rules out and on which the code would panic.
- Raft lease calls (`acquire_lease`, `release_lease`): they only wrap `propose`, and applying a lease overwrites it
  unconditionally, so exclusivity is not decided by this code.
- X25519 as a group: multiples are defined by the doubling and differential addition formulas for x-coordinates, which
  are not derived from the group law.
- X25519Multiples.ScalarMultIs: takes Fermat's little theorem for 2^255-19 as a hypothesis; the primality behind it is
  not proved.
- ML-KEM key and ciphertext types beyond their byte strings, key generation from system randomness, and the ML-DSA
  functions, which only expand hashes.
- BLAKE3 itself: the shared secret is a function of the message and the ciphertext, the incremental stream hash is a
  function of the stream.
- `FecCodec` in `transport/fec.rs`, its single-parity shortcut and the adaptive controller; `ec/scrub.rs` and the file
  access of envelopes.
- UTF-8 decoding of object identifiers, which is a predicate on bytes.
- ChunkReader.ChunkAll: does not model a failing read or a callback that reports an error, both of which stop the loop.
- The values of the two mixing tables, which no property here depends on; `PipelinedChunker` and `ReuseStats`.
- 64-bit wrap-around of stream offsets and counters in the chunkers.
- Blinded leaf commitments, hexadecimal and JSON forms of audit and credential records, status reports and benchmarks.
- Which of several equal leaves the library's binary search reports: any may be returned, and no result depends on it.
- MlKemDisagreement.CanDisagree: shows the disagreement for sampled polynomials chosen by hand; no seed of the real
  hash that samples them is exhibited.
- MerkleExclusion.AcceptedMeansAbsent: takes bounds whose paths have full length and spell their claimed index, which
  the code does not check; without these checks the exact conditions are MerkleExclusion.TwoBoundsFullPathsIff and
  MerkleExclusion.TwoBoundsAcceptedIff.
- MerkleExclusion.AscendingMeansAbsent: is for a caller who makes the same two checks.
- MerkleExclusion.TwoBoundsSoundIff: is for a caller who makes the same two checks.
- MerkleExclusion.TwoBoundsWithinTreeIff: is for paths no longer than the tree is high, which the code does not check.
- MerkleExclusion.TwoBoundsFullPathsIff: is for paths of full length, which the code does not check.
- MerkleExclusion.OneBoundSoundIff: is for paths of full length; for all paths see MerkleExclusion.OneBoundAcceptedIff.
- Credentials.PathsAttenuate: is stated for an ancestor whose pattern list is covered, because the code's check is
  textual and fails on exactly the others (Credentials.DescendantsNarrowIff).
- Credential verification reads the clock once for a whole chain, and the checks on the proof block, the issuer's key
  and the signature are one predicate on credentials.
- Schedulers, manifests, transport control, servers, configuration, metrics, packaging and clients.
