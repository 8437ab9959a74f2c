# Verified models of the PyMace CRDT library and its dissemination protocols

This project models, in Dafny, the delta-CRDT library of PyMace (`apps/crdt/common/delta-crdts.cc`), the three
protocols built on it (Trickle, flooding by broadcast, and RAPID), and the union-find behind the connectivity
figures, and proves what they are for. Code that updates objects is modelled by classes and loops; each method is
proved against a function on values, and the laws and the invariants of whole runs are proved about those functions.
`dafny verify dfyconfig.toml` checks everything.

| file | what it models |
|---|---|
| `DotContext.dfy` | causal contexts: compaction to a unique normal form, fresh dots, context join |
| `DotKernel.dfy` | dot stores: the two-pointer joins, their semilattice laws, mutators and their deltas |
| `DotTypes.dfy` | add-wins set, remove-wins set, multi-value register |
| `KernelRuns.dfy` | distributed runs of the types on a kernel: strong eventual consistency, what is stored |
| `TypeRuns.dfy` | what that says about add-wins sets, remove-wins sets and multi-value registers |
| `OrMap.dfy` | the map whose entries share one context: its join is one join of the flattened stores |
| `Sums.dfy` | finite sums, and maps read as functions that are zero outside their keys |
| `Counters.dfy` | grow-only counter, and the bounded counter with its transfers of rights |
| `BCounterRuns.dfy` | distributed runs of bounded counters: nobody overdraws |
| `OrSeq.dfy` | dense positions, and local edits of the replicated sequence |
| `Basics.dfy` | the option type, minimum and maximum, powers of two |
| `Bytes.dfy`, `Codecs.dfy`, `CounterCodec.dfy`, `RapidCodec.dfy` | byte formats and their inverses |
| `TrickleNode.dfy` | one Trickle node: the vector of known counts and the counter that must agree with it |
| `TrickleRuns.dfy` | the summary/repair protocol: safety of every run, and convergence |
| `TrickleTimer.dfy` | the Trickle timer in ticks |
| `Flooding.dfy` | delta buffer, flush and re-trigger |
| `CastQueue.dfy`, `Rapid.dfy` | the deferral queue, and the RAPID application around it |
| `UnionFind.dfy`, `RangeGraph.dfy` | the forest with path halving, and the figures of one snapshot |

Conventions. A *kernel* is a dot store with its context; `Wf` says the context is compacted and knows every stored
dot, `Replica` also that the replica's own dots are all in the compact part. A *run* is a list of states and acts,
each state following from the one before by one step; networks keep every packet for ever, so a packet may be lost
(never delivered), repeated, delayed and overtaken. Each region under one lock is one step. `hide F` in a proof only
keeps the definition of `F` away from the solver.

Where code and documentation differ, the code is modelled: new information resets the Trickle timer even at the
shortest interval (rule 6 of section 4.2 of RFC 6206 asks for nothing to happen), and a node name such as `01` passes
the configuration check of the Trickle application but breaks the agreement of its two copies of the state.

## Model

| member | source | states |
|---|---|---|
| DotContexts.UniqueNormalForm | apps/crdt/common/delta-crdts.cc:203-240 | Two compacted contexts that know the same dots are equal representations. |
| DotContexts.Norm | apps/crdt/common/delta-crdts.cc:203-240 | Compaction, in whatever order, ends in a compacted context that knows exactly the same dots. |
| DotContexts.DotContext.DotIn | apps/crdt/common/delta-crdts.cc:195-201 | True exactly for the dots the context denotes. |
| DotContexts.DotContext.CompactPass | apps/crdt/common/delta-crdts.cc:212-237 | One ascending pass over the cloud already reaches the normal form, and the flag is raised only when the cloud shrank. |
| DotContexts.DotContext.Compact | apps/crdt/common/delta-crdts.cc:203-240 | The fixpoint loop terminates in the normal form. |
| DotContexts.NextDotIsFresh | apps/crdt/common/delta-crdts.cc:242-252 | For a valid generator, or a compacted context, the generated dot was unknown and is the only one added; a valid generator stays valid and compacted. |
| DotContexts.DotContext.MakeDot | apps/crdt/common/delta-crdts.cc:242-252 | Returns the dot after the compact prefix and leaves the context that has generated it. |
| DotContexts.DotContext.InsertDot | apps/crdt/common/delta-crdts.cc:254-259 | Adds the dot to the cloud, and compacts when asked to. |
| DotContexts.InCtxJoin | apps/crdt/common/delta-crdts.cc:262-299 | The joined context knows exactly what either side knew. |
| DotContexts.CtxJoinLaws | apps/crdt/common/delta-crdts.cc:262-299 | Context join is idempotent, commutative and associative on representations. |
| DotContexts.DotContext.Join | apps/crdt/common/delta-crdts.cc:262-299 | The two-pointer merge of the compact parts and the cloud loop terminate and compute the context join; a self-join changes nothing. |
| DotKernels.AtJoin | apps/crdt/common/delta-crdts.cc:340-373 | The join works dot by dot: kept if in both, or here and unknown there, or there and unknown here. |
| DotKernels.ClashAt | apps/crdt/common/delta-crdts.cc:340-415 | Where both sides store a dot under different payloads the join keeps the own one, and the deep join merges the other into it. |
| DotKernels.JoinKeepsWf | apps/crdt/common/delta-crdts.cc:340-415 | Joins keep kernels well-formed. |
| DotKernels.JoinIdempotent | apps/crdt/common/delta-crdts.cc:340-415 | Joining a well-formed kernel with an equal one changes nothing. |
| DotKernels.JoinCommutative | apps/crdt/common/delta-crdts.cc:340-415 | The joins commute when payloads of shared dots agree, or (deep join) form a semilattice. |
| DotKernels.JoinAssociative | apps/crdt/common/delta-crdts.cc:340-415 | The joins are associative under the same conditions. |
| DotKernels.DotKernel.Join | apps/crdt/common/delta-crdts.cc:340-373 | The in-place two-pointer loop terminates and computes the join, also over a context shared with the other kernel. |
| DotKernels.DotKernel.DeepJoin | apps/crdt/common/delta-crdts.cc:375-415 | Likewise, merging unequal payloads of one dot. |
| DotKernels.DropLaw | apps/crdt/common/delta-crdts.cc:441-480 | Removing stored dots equals joining the returned delta. |
| DotKernels.ReplaceLaw | apps/crdt/common/delta-crdts.cc:418-480 | From a valid generator, removing dots and adding a value under a new dot equals joining the combined delta. |
| DotKernels.ReplaceLawExactly | apps/crdt/common/delta-crdts.cc:418-480 | For any kernel at all, replacing says the same about every dot as joining the returned delta exactly when the next dot is unknown, or is stored and not among the removed ones. |
| DotKernels.ReplaceLawNeedsGenerator | apps/crdt/common/delta-crdts.cc:242-252 | A replica that absorbs its own second dot and then adds twice: the second add keeps a dot that joining its delta removes. |
| DotKernels.DropDeltasJoin | apps/crdt/common/delta-crdts.cc:441-480 | Removal deltas join to the removal delta of the union. |
| DotKernels.ReplaceDeltaIsJoin | apps/crdt/common/delta-crdts.cc:958-964 | The delta the types return carries the new dot alone and knows the removed ones; a next dot that is itself removed counts as removed. |
| DotKernels.DotKernel.Add | apps/crdt/common/delta-crdts.cc:418-429 | Stores the value under the next dot, and returns the kernel of that dot alone. |
| DotKernels.DotKernel.Rmv | apps/crdt/common/delta-crdts.cc:441-457 | Removes exactly the dots that carry the value, and returns their compacted context. |
| DotKernels.DotKernel.RmvDot | apps/crdt/common/delta-crdts.cc:459-470 | Removes one dot if it is stored, and reports it then. |
| DotKernels.DotKernel.RmvAll | apps/crdt/common/delta-crdts.cc:472-480 | Empties the store, and reports every dot. |
| DotTypes.AworDeltaLaws | apps/crdt/common/delta-crdts.cc:958-978 | add, rmv and reset equal joining their deltas, and leave a valid replica. |
| DotTypes.AworReads | apps/crdt/common/delta-crdts.cc:938-978 | The set read after add, rmv and reset is the old one with, without, and emptied. |
| DotTypes.AddedOnce | apps/crdt/common/delta-crdts.cc:958-964 | After an add the value is stored under the new dot and under no other. |
| DotTypes.AworSet.Add | apps/crdt/common/delta-crdts.cc:958-964 | The in-place add and its returned delta are the ones the law is about. |
| DotTypes.AworSet.Rmv | apps/crdt/common/delta-crdts.cc:966-971 | Likewise for rmv. |
| DotTypes.AworSet.Reset | apps/crdt/common/delta-crdts.cc:973-978 | Likewise for reset. |
| DotTypes.AworSet.Read | apps/crdt/common/delta-crdts.cc:938-944 | Collects exactly the stored values. |
| DotTypes.AworSet.In | apps/crdt/common/delta-crdts.cc:946-955 | Finds a value exactly when it is read. |
| DotTypes.AworSet.Join | apps/crdt/common/delta-crdts.cc:980-983 | Is the kernel join. |
| DotTypes.RworDeltaLaw | apps/crdt/common/delta-crdts.cc:1043-1059 | add and rmv of the remove-wins set equal joining their deltas; afterwards the value is read, or is not. |
| DotTypes.MarkedOnce | apps/crdt/common/delta-crdts.cc:1043-1059 | After an add or a rmv the value has one token, the new one. |
| DotTypes.RmvTokensInSteps | apps/crdt/common/delta-crdts.cc:1043-1059 | Removing the two kinds of token one after the other, and joining the two deltas, is removing them all. |
| DotTypes.RemoveTokenWins | apps/crdt/common/delta-crdts.cc:1012-1041 | A join that keeps any unseen remove token of a value does not read the value. |
| DotTypes.RworSet.Read | apps/crdt/common/delta-crdts.cc:1012-1032 | Folding the flags of each element by and reads exactly the elements that have a token and no remove token. |
| DotTypes.RworSet.In | apps/crdt/common/delta-crdts.cc:1034-1040 | Finds a value exactly when it is read. |
| DotTypes.RworSet.Mark | apps/crdt/common/delta-crdts.cc:1043-1059 | The in-place mutators and their deltas are the ones the law is about. |
| DotTypes.RworSet.RmvTokens | apps/crdt/common/delta-crdts.cc:1043-1059 | Removes every observed token of the value, and reports them. |
| DotTypes.MvWriteLaw | apps/crdt/common/delta-crdts.cc:1100-1107 | Writing equals joining the delta and leaves the one value. |
| DotTypes.MvReg.Write | apps/crdt/common/delta-crdts.cc:1100-1107 | The in-place write and its delta are the ones the law is about. |
| DotTypes.MvReg.Read | apps/crdt/common/delta-crdts.cc:1109-1115 | Collects exactly the stored values. |
| KernelRuns.JoinDenotes | apps/crdt/common/delta-crdts.cc:340-373 | Joining packets joins the sets of mutations they stand for. |
| KernelRuns.RunKeepsInv | apps/crdt/common/delta-crdts.cc:914-1146 | In every run of any type on a kernel, with deltas, delta groups and whole states lost, repeated and reordered, every replica and packet stands for a set of mutations. |
| KernelRuns.StoreIsAddedMinusRemoved | apps/crdt/common/delta-crdts.cc:914-1146 | In every run a replica's store is exactly the dots added minus the dots removed by the mutations it absorbed, and its context is the union of theirs. |
| KernelRuns.SameEventsSameStateInRun | apps/crdt/common/delta-crdts.cc:914-1146 | In every run replicas that absorbed the same mutations are in the same state, representation included. |
| KernelRuns.SameEventsSameState | apps/crdt/common/delta-crdts.cc:914-1146 | The same for any two packets or replicas. |
| KernelRuns.UnhitPutIsStored | apps/crdt/common/delta-crdts.cc:914-1146 | A payload that no absorbed mutation has both observed and hit is stored. |
| KernelRuns.StoredIsStanding | apps/crdt/common/delta-crdts.cc:914-1146 | With whole-state shipping exactly the payloads with a standing put are stored: a specification without dots. |
| AworRuns.MutatorsOfAwor | apps/crdt/common/delta-crdts.cc:958-978 | add, rmv and reset of the add-wins set are mutations of such runs. |
| AworRuns.StrongEventualConsistency | apps/crdt/common/delta-crdts.cc:914-986 | Add-wins sets that absorbed the same mutations are in the same state and read the same set. |
| AworRuns.AddWins | apps/crdt/common/delta-crdts.cc:958-983 | An absorbed add that no absorbed mutation of its value and no absorbed reset has seen is read. |
| AworRuns.ObservedRemoveSet | apps/crdt/common/delta-crdts.cc:914-986 | With whole-state shipping a replica reads a value exactly when it absorbed an add of it that no absorbed removal of it and no absorbed reset has seen. |
| RworRuns.MutatorsOfRwor | apps/crdt/common/delta-crdts.cc:1043-1066 | add, rmv and reset of the remove-wins set are mutations of such runs. |
| RworRuns.RemoveWins | apps/crdt/common/delta-crdts.cc:1012-1072 | An absorbed removal that no absorbed mutation of its value and no absorbed reset has seen keeps the value out, however many adds there are. |
| RworRuns.RemoveWinsSet | apps/crdt/common/delta-crdts.cc:1012-1072 | With whole-state shipping a replica reads a value exactly when an add of it stands and no removal of it does. |
| MvRuns.MutatorsOfMv | apps/crdt/common/delta-crdts.cc:1100-1122 | write and reset of the multi-value register are mutations of such runs. |
| MvRuns.ReadsCurrentValues | apps/crdt/common/delta-crdts.cc:1100-1146 | With whole-state shipping a register reads exactly the values of which some absorbed write has been seen by no other absorbed mutation than further writes of the value. |
| OrMaps.FlattenJoin | apps/crdt/common/delta-crdts.cc:1491-1549 | Joining key by key through one shared context, restored after each key, equals one kernel join of the flattened map. |
| OrMaps.MapJoinLaws | apps/crdt/common/delta-crdts.cc:1491-1549 | Hence the map join is idempotent, commutative and associative, up to keys left empty. |
| OrMaps.EraseLaw | apps/crdt/common/delta-crdts.cc:1458-1471 | Erasing a key equals joining the erase delta. |
| OrMaps.ResetLaw | apps/crdt/common/delta-crdts.cc:1473-1488 | Clearing the map equals joining the reset delta. |
| OrMaps.OrMap.JoinEntry | apps/crdt/common/delta-crdts.cc:1511-1543 | Joining one entry changes that entry only, and the restored context is what it was. |
| OrMaps.OrMap.JoinKey | apps/crdt/common/delta-crdts.cc:1511-1543 | Joins one key of the walk, with an empty payload over the other context where only this map has it. |
| OrMaps.OrMap.JoinEntries | apps/crdt/common/delta-crdts.cc:1493-1546 | The loop over both key sequences joins every key, and only at the end is the context joined. |
| OrMaps.OrMap.Join | apps/crdt/common/delta-crdts.cc:1491-1549 | Computes the map join in place, also of a map with itself or with one that shares its context. |
| OrMaps.OrMap.Erase | apps/crdt/common/delta-crdts.cc:1458-1471 | Drops the key, and returns the context of its dots. |
| OrMaps.OrMap.Reset | apps/crdt/common/delta-crdts.cc:1473-1488 | Drops all keys, and returns the joined contexts of their dots. |
| Counters.GCounter.Inc | apps/crdt/common/delta-crdts.cc:495-501 | Adds to the own entry; the new state is the old one joined with the returned delta exactly when the amount is not negative. |
| Counters.GCounter.Local | apps/crdt/common/delta-crdts.cc:508-513 | The own entry, which is created when absent. |
| Counters.GCounter.Read | apps/crdt/common/delta-crdts.cc:515-521 | The sum of the entries. |
| Counters.GCounter.Join | apps/crdt/common/delta-crdts.cc:523-527 | The entrywise maximum, an absent local entry counting as zero. |
| Counters.IncLaw | apps/crdt/common/delta-crdts.cc:1834-1839 | inc of the bounded counter equals joining its delta exactly when the amount is not negative. |
| Counters.DecLaw | apps/crdt/common/delta-crdts.cc:1841-1847 | dec equals joining its delta exactly when the amount is not negative or is refused. |
| Counters.MvLaw | apps/crdt/common/delta-crdts.cc:1849-1858 | mv equals joining its delta exactly when the amount is not negative or is refused, or nothing was moved that way before. |
| Counters.IncRights | apps/crdt/common/delta-crdts.cc:1834-1839 | An inc adds its amount to the own rights and to the value. |
| Counters.DecRights | apps/crdt/common/delta-crdts.cc:1841-1847 | An accepted dec, of any amount, takes it from the own rights and from the value; it raises the value exactly when it is negative and within the rights. |
| Counters.MvRights | apps/crdt/common/delta-crdts.cc:1849-1858 | An accepted mv, of any amount, takes it from the own rights, gives it to the other id and leaves the value; a negative one takes from the other. |
| Counters.TouchedReadsSame | apps/crdt/common/delta-crdts.cc:1866-1876 | The entries that asking for the local value creates change neither rights nor value. |
| Counters.BCounter.Local | apps/crdt/common/delta-crdts.cc:1866-1876 | Increments minus decrements plus incoming minus outgoing transfers. |
| Counters.BCounter.Dec | apps/crdt/common/delta-crdts.cc:1841-1847 | Subtracts exactly when the local rights suffice, and returns the delta the law is about. |
| Counters.BCounter.Mv | apps/crdt/common/delta-crdts.cc:1849-1858 | Transfers exactly when the local rights suffice, and returns the delta the law is about. |
| Counters.BCounter.Join | apps/crdt/common/delta-crdts.cc:1878-1882 | Joins increments, decrements and transfers entry by entry. |
| BCounterRuns.FlowsCancel | apps/crdt/common/delta-crdts.cc:1866-1876 | What flows out of the ids flows into the ids. |
| BCounterRuns.ReadIsSumOfRights | apps/crdt/common/delta-crdts.cc:1860-1876 | The value a state reads is the sum of the rights it derives. |
| BCounterRuns.CausalNeverOverdraws | apps/crdt/common/delta-crdts.cc:1821-1890 | In every run in which each delivery leaves its receiver anchored (what it knows of an id is a state the id has been in, with all that id knew then), every replica gives every id non-negative rights and reads a non-negative value. |
| BCounterRuns.AnchoredPacketIsCausal | apps/crdt/common/delta-crdts.cc:1878-1882 | Delivering a packet that is anchored itself leaves an anchored receiver anchored. |
| BCounterRuns.WholeStatesNeverOverdraw | apps/crdt/common/delta-crdts.cc:1821-1890 | So in every run that delivers only whole states, stale or repeated ones too, nobody overdraws. |
| BCounterRuns.ReadAfterDelivery | apps/crdt/common/delta-crdts.cc:1860-1882 | A delivery leaves a non-negative reading exactly when the packet's new decrements are at most the value read plus its new increments. |
| BCounterRuns.ReadsNonNegativeExactly | apps/crdt/common/delta-crdts.cc:1834-1882 | In a run with arbitrary deltas no replica ever reads a negative value exactly when every delivery meets that condition and every accepted decrement is covered by the value read. |
| BCounterRuns.LocalIsSafe | apps/crdt/common/delta-crdts.cc:1841-1882 | In every run with arbitrary deltas a replica's local rights lie between zero and its true rights. |
| BCounterRuns.TrueRightsSumToValue | apps/crdt/common/delta-crdts.cc:1849-1876 | True rights add up to the true value: transfers only redistribute. |
| BCounterRuns.RightsAreTheAccount | apps/crdt/common/delta-crdts.cc:1821-1882 | In every run the true rights of an id are what it incremented and was given, less what it decremented and gave away. |
| BCounterRuns.ValueIsTheBalance | apps/crdt/common/delta-crdts.cc:1821-1882 | In every run the true value is what was incremented less what was accepted to be decremented. |
| BCounterRuns.JoinOfAllReadsTrueValue | apps/crdt/common/delta-crdts.cc:1860-1882 | In every run the join of all replicas reads that balance of increments and accepted decrements, which is not negative. |
| BCounterRuns.DeltasCanReadNegative | apps/crdt/common/delta-crdts.cc:1860-1864 | A run in which one replica reads a negative value, because deltas travelled alone. |
| OrSeqs.RefinementEnds | apps/crdt/common/delta-crdts.cc:144-152 | Appending zeros and a one to l falls below r after finitely many zeros exactly when r is not l followed by zeros only. |
| OrSeqs.Among | apps/crdt/common/delta-crdts.cc:118-155 | Both loops terminate with a position strictly between that ends in true. |
| OrSeqs.RoomBetween | apps/crdt/common/delta-crdts.cc:118-155 | An upper neighbour that ends in true always leaves room. |
| OrSeqs.InsertedInOrder | apps/crdt/common/delta-crdts.cc:1966-1991 | Inserting between the neighbours keeps positions strictly increasing and edits the payloads like a list. |
| OrSeqs.OrSeq.Insert | apps/crdt/common/delta-crdts.cc:1966-1991 | Positions stay strictly increasing within ([0],[1]) and the payloads are the old list with the value at that place. |
| OrSeqs.OrSeq.MakeFirst | apps/crdt/common/delta-crdts.cc:1994-2010 | Likewise for the first element. |
| OrSeqs.OrSeq.PushBack | apps/crdt/common/delta-crdts.cc:2012-2032 | Likewise at the back. |
| OrSeqs.OrSeq.PushFront | apps/crdt/common/delta-crdts.cc:2034-2054 | Likewise at the front. |
| OrSeqs.OrSeq.Erase | apps/crdt/common/delta-crdts.cc:1941-1950 | Removes one element, keeps the rest in order, and reports its dot. |
| Bytes.ReadWritten | apps/crdt/trickle/crdt_trickle.cpp:102-114 | Reading n little-endian bytes gives back every number that fits. |
| Bytes.WriteRead | apps/crdt/trickle/crdt_trickle.cpp:102-114 | Writing what was read gives back the bytes. |
| Bytes.ByteAt | apps/crdt/rapid/crdt_rapid.cpp:191-201 | The i-th byte of a number is its quotient by 256^i, modulo 256. |
| Bytes.FourBytes | apps/crdt/trickle/crdt_trickle.cpp:102-106 | The four bytes of a word, lowest first. |
| Bytes.FromFourBytes | apps/crdt/trickle/crdt_trickle.cpp:108-114 | The word that four bytes stand for. |
| Bytes.AppendBytes | apps/crdt/rapid/crdt_rapid.cpp:191-201 | The shifting loop appends exactly the n lowest bytes, for 32-bit and 64-bit numbers alike. |
| Bytes.ReadBytes | apps/crdt/rapid/crdt_rapid.cpp:203-217 | Or-ing in the shifted bytes yields the number they stand for. |
| Bytes.OrAdds | apps/crdt/rapid/crdt_rapid.cpp:203-217 | Or-ing a number shifted beyond the bits of another is adding it. |
| Bytes.AppendUint32 | apps/crdt/trickle/crdt_trickle.cpp:102-106 | Appends exactly the four bytes. |
| Bytes.ReadUint32 | apps/crdt/trickle/crdt_trickle.cpp:108-114 | Computes the number the four bytes stand for. |
| Bytes.DecimalInjective | apps/crdt/trickle/crdt_trickle.cpp:346-362 | Different indices have different decimal names. |
| Codecs.BuildSummaryPacket | apps/crdt/trickle/crdt_trickle.cpp:364-372 | Writes type, count and entries. |
| Codecs.ParseSummaryPacket | apps/crdt/trickle/crdt_trickle.cpp:374-403 | Accepts exactly the byte strings that from the second byte on are a built packet of the expected count, and returns its entries. |
| Codecs.SummaryRoundTrip | apps/crdt/trickle/crdt_trickle.cpp:364-403 | What the parser answers for a built summary packet is the summary it was built from. |
| Codecs.BuildRepairPacket | apps/crdt/trickle/crdt_trickle.cpp:405-414 | Writes type, count and pairs. |
| Codecs.ParseRepairPacket | apps/crdt/trickle/crdt_trickle.cpp:416-443 | Accepts exactly the byte strings that from the second byte on are a built packet, and returns its pairs. |
| Codecs.RepairRoundTrip | apps/crdt/trickle/crdt_trickle.cpp:405-443 | What the parser answers for a built repair packet is the list of entries it was built from. |
| Codecs.Understand | apps/crdt/trickle/crdt_trickle.cpp:669-710 | The first byte picks the parser; what the parser refuses and repairs without entries are ignored. |
| Codecs.SummaryUnderstood | apps/crdt/trickle/crdt_trickle.cpp:669-675 | A built summary packet is taken for its summary and for nothing else. |
| Codecs.RepairUnderstood | apps/crdt/trickle/crdt_trickle.cpp:702-710 | A built repair packet is taken for its repair, and ignored when it has no entries. |
| Codecs.SummaryLayout | apps/crdt/trickle/crdt_trickle.cpp:364-372 | On the wire: 1, the number of counts in four bytes, the i-th count in the i-th four bytes after it. |
| Codecs.RepairLayout | apps/crdt/trickle/crdt_trickle.cpp:405-414 | On the wire: 2, the number of pairs in four bytes, the i-th index and count in the i-th eight bytes after it. |
| CounterCodec.Serialize | apps/crdt/common/delta-crdts.cc:539-559 | Writes every entry of the map once, in some order. |
| CounterCodec.Deserialize | apps/crdt/common/delta-crdts.cc:562-586 | The reading loop computes the decoding function. |
| CounterCodec.DecodeEncoded | apps/crdt/common/delta-crdts.cc:539-586 | Deserializing what was serialized gives the same map, for arbitrary keys, whatever bytes follow. |
| CounterCodec.DecodedWasEncoded | apps/crdt/common/delta-crdts.cc:562-586 | Whatever decodes to a full count is an encoding followed by ignored bytes. |
| CounterCodec.DecodesExactly | apps/crdt/common/delta-crdts.cc:562-586 | Data with a whole count decodes exactly when it begins with an encoding; shorter data is the empty counter. |
| CounterCodec.StoredIsLast | apps/crdt/common/delta-crdts.cc:581-582 | A repeated key keeps the value of its last entry, and there are no other keys. |
| CounterCodec.EntryLayout | apps/crdt/common/delta-crdts.cc:549-556 | An entry is the key length in eight bytes, the key, and the value modulo 2^32 in four bytes. |
| CounterCodec.CounterLayout | apps/crdt/common/delta-crdts.cc:544-557 | An encoding is the number of entries in eight bytes and each entry right after those before it. |
| TrickleNodes.MergedIsMax | apps/crdt/trickle/crdt_trickle.cpp:724-735 | Applying a repair takes, index by index, the largest of the known and the received counts, whatever the order and repetition of entries. |
| TrickleNodes.AgreeingRead | apps/crdt/trickle/crdt_trickle.cpp:740-746 | When vector and counter agree, read() is the sum of the vector. |
| TrickleNodes.RepairDecodes | apps/crdt/trickle/crdt_trickle.cpp:346-362 | What the repair encoder writes is what the counter's deserializer reads. |
| TrickleNodes.RepairKeepsAgreement | apps/crdt/trickle/crdt_trickle.cpp:724-746 | From agreement, any repair (repeated and out-of-range indices included) leaves agreement exactly when every count the packet has for a known index fits an int. |
| TrickleNodes.LocalOpAgreement | apps/crdt/trickle/crdt_trickle.cpp:790-796 | From agreement, a local operation leaves agreement exactly when the node's name is the decimal numeral of its index. |
| TrickleNodes.NumeralIsCut | apps/crdt/trickle/crdt_trickle.cpp:156-168 | A plain numeral is accepted exactly when it fits 64 bits, and then stands for its lowest 32. |
| TrickleNodes.CanonicalIsAccepted | apps/crdt/trickle/crdt_trickle.cpp:156-168 | The configuration accepts the decimal numeral of every index for that index. |
| TrickleNodes.SignedNumeralIsAccepted | apps/crdt/trickle/crdt_trickle.cpp:156-168 | Spaces and a sign in front are accepted, and a minus takes the number from 2^64. |
| TrickleNodes.PaddedNameBreaksAgreement | apps/crdt/trickle/crdt_trickle.cpp:156-168 | It accepts the name 01 for index 1 too, and then the first local operation breaks agreement. |
| TrickleNodes.SerializeRepair | apps/crdt/trickle/crdt_trickle.cpp:346-362 | Writes the counter encoding of the applied entries. |
| TrickleNodes.TrickleNode.LocalOp | apps/crdt/trickle/crdt_trickle.cpp:790-796 | The new vector, and that agreement and the right total follow for a canonical name and are lost for any other. |
| TrickleNodes.TrickleNode.ApplyRepair | apps/crdt/trickle/crdt_trickle.cpp:724-746 | The new vector and counter, whether anything was new, exactly when agreement survives, and that the total is then the sum of the vector. |
| TrickleRuns.CompareSummaries | apps/crdt/trickle/crdt_trickle.cpp:304-327 | The relation says on which side some count is ahead. |
| TrickleRuns.BuildRepairEntries | apps/crdt/trickle/crdt_trickle.cpp:329-344 | Exactly the counts in which the local vector is ahead. |
| TrickleRuns.HandleSummary | apps/crdt/trickle/crdt_trickle.cpp:671-701 | A repair is sent exactly when some local count is ahead, the own summary exactly when some remote count is; the timer notes consistency exactly for equal vectors. |
| TrickleRuns.StepKeepsInv | apps/crdt/trickle/crdt_trickle.cpp:671-796 | Known counts never fall, an own count rises only by its owner's increment, and nothing known or in flight exceeds its owner's count. |
| TrickleRuns.RunKeepsInv | apps/crdt/trickle/crdt_trickle.cpp:671-796 | The same along every run. |
| TrickleRuns.TotalIsTruth | evaluation/parse_convergence.py:42-73 | In every run a node's total is at most the ground truth, and equals it only when its whole vector does. |
| TrickleRuns.TruthIsCreated | evaluation/parse_convergence.py:42-73 | The own counts add up to the increments performed. |
| TrickleRuns.SettledIffNoDeficit | apps/crdt/trickle/crdt_trickle.cpp:671-761 | The missing counts add up to zero exactly when every vector is the truth. |
| TrickleRuns.DeficitNeverRises | apps/crdt/trickle/crdt_trickle.cpp:671-761 | Without local operations no step raises the deficit, and it falls whenever a vector changes. |
| TrickleRuns.ExchangeProgress | apps/crdt/trickle/crdt_trickle.cpp:671-761 | For nodes with different vectors, delivering one's summary and at most two of the answers strictly lowers the deficit. |
| TrickleRuns.ExchangeAnswers | apps/crdt/trickle/crdt_trickle.cpp:688-701 | Each later packet of that exchange is one the delivery before it made the receiver send. |
| TrickleRuns.Converges | apps/crdt/trickle/crdt_trickle.cpp:671-761 | From every reachable state, at most as many exchanges as the deficit bring every node to the truth. |
| TrickleTimers.EveryTickIsDrawn | apps/crdt/trickle/crdt_trickle.cpp:468-475 | The choice ranges over the whole second half of the interval. |
| TrickleTimers.TrickleController.constructor | apps/crdt/trickle/crdt_trickle.cpp:497-504 | Parameters are raised to at least one and to a non-empty range, and a shortest interval begins. |
| TrickleTimers.TrickleController.DoTick | apps/crdt/trickle/crdt_trickle.cpp:506-523 | One tick is the step the timer theorems are about. |
| TrickleTimers.TrickleController.NoteNewInformation | apps/crdt/trickle/crdt_trickle.cpp:530-535 | Wherever the timer stood, a shortest interval begins, with nothing heard and nothing decided. |
| TrickleTimers.TrickleController.NoteConsistentSummary | apps/crdt/trickle/crdt_trickle.cpp:525-528 | Counts one more, and 0 after 2^32 - 1. |
| TrickleTimers.OneDecisionPerInterval | apps/crdt/trickle/crdt_trickle.cpp:506-523 | A completed reset-free interval holds exactly one decision, in its second half, to transmit exactly when fewer than k consistent summaries were noted modulo 2^32; then a fresh interval of twice the length, at most imax, begins. |
| TrickleTimers.FewerThanKTransmits | apps/crdt/trickle/crdt_trickle.cpp:511-514 | With fewer than 2^32 summaries noted the decision is to transmit when fewer than k were, and to suppress otherwise. |
| TrickleTimers.IntervalAfter | apps/crdt/trickle/crdt_trickle.cpp:485-494 | After j expiries the interval is min(imax, imin * 2^j), and the ticks so far are those of the j intervals and the elapsed ones. |
| TrickleTimers.NextDecision | apps/crdt/trickle/crdt_trickle.cpp:506-523 | The next decision follows at most imax + ceil(imax / 2) - 1 ticks later. |
| TrickleTimers.TransmissionBudget | apps/crdt/trickle/crdt_trickle.cpp:445-541 | T reset-free ticks after a reset bring at most ceil(log2(imax / imin)) + floor(T / imax) + 1 transmissions. |
| TrickleTimers.NewInformationResets | apps/crdt/trickle/crdt_trickle.cpp:477-483 | After any events at all, new information begins a fresh undecided interval of length imin whose tick lies in its second half. |
| TrickleTimers.IntervalAfterReset | apps/crdt/trickle/crdt_trickle.cpp:477-494 | So j expiries after new information, whatever came before it, the interval is min(imax, imin * 2^j). |
| TrickleTimers.BudgetAfterReset | apps/crdt/trickle/crdt_trickle.cpp:445-541 | And T ticks after it bring at most ceil(log2(imax / imin)) + floor(T / imax) + 1 transmissions. |
| TrickleTimers.DecisionAfterReset | apps/crdt/trickle/crdt_trickle.cpp:477-523 | And imin ticks after it a decision has been made. |
| TrickleTimers.ResetAtShortest | apps/crdt/trickle/crdt_trickle.cpp:477-483 | At the shortest interval new information leaves the timer alone only when it had just begun and the same tick is drawn: rule 6 is not followed. |
| Flooding.FloodNode.Increment | apps/crdt/broadcast/crdt_broadcast.cpp:283-291 | The own count rises by exactly the amount, and its delta is held. |
| Flooding.FloodNode.BufferDelta | apps/crdt/broadcast/crdt_broadcast.cpp:297-300 | Joins the held delta into the buffer. |
| Flooding.FloodNode.Disseminate | apps/crdt/broadcast/crdt_broadcast.cpp:177-208 | Sends and empties a filled buffer, or spends a re-trigger on the last payload, or does nothing. |
| Flooding.FloodNode.Receive | apps/crdt/broadcast/crdt_broadcast.cpp:239-246 | Joins the payload. |
| Flooding.NothingStranded | apps/crdt/broadcast/crdt_broadcast.cpp:156-302 | In every run the larger of the buffered and the last sent count is the own count, but for the one delta not yet buffered. |
| Flooding.SentAtMostTwice | apps/crdt/broadcast/crdt_broadcast.cpp:156-215 | In every run a payload carries its sender's id only, and is sent once or twice. |
| Flooding.LastIsRepeated | apps/crdt/broadcast/crdt_broadcast.cpp:189-199 | After a round that finds nothing new, the last payload has been sent exactly twice. |
| Flooding.OwnIsAdded | apps/crdt/broadcast/crdt_broadcast.cpp:283-291 | In every run a node's own count is the sum of its increments, whatever it received. |
| Flooding.TruthIsCreated | apps/crdt/broadcast/crdt_broadcast.cpp:283-302 | In every run the own counts add up to the sum of all increments. |
| Flooding.LastPayloadsSuffice | apps/crdt/broadcast/crdt_broadcast.cpp:156-302 | At quiescence a node that joined each other sender's last payload reads the sum of all increments ever made. |
| CastQueues.FirstDue | apps/crdt/rapid/crdt_rapid.cpp:161-175 | The entry at that place is due and none before it is. |
| CastQueues.CastQueue.PopDue | apps/crdt/rapid/crdt_rapid.cpp:161-175 | Takes out the first due entry, and nothing exactly when none is due. |
| CastQueues.CastQueue.Push | apps/crdt/rapid/crdt_rapid.cpp:153-159 | A push appends one entry with exactly the given id, chance, time and payload, and keeps every push in exactly one place. |
| CastQueues.CastQueue.Decide | apps/crdt/rapid/crdt_rapid.cpp:372-382 | A draw of at most its chance sends the held entry and logs it; any other puts it back with its message, a later time and certainty, and sends nothing. Every push stays in exactly one place, no entry is put back twice, and less remains to be decided. |
| CastQueues.CastQueue.Work | apps/crdt/rapid/crdt_rapid.cpp:370-386 | One round sends what the theorems say it sends, logs exactly that, and keeps the same. |
| CastQueues.CastQueue.CastWorker | apps/crdt/rapid/crdt_rapid.cpp:367-387 | The loop logs exactly what it sends; once it has made as many late enough rounds as there was potential the queue is empty, and what was sent before and by the loop holds every push exactly once. |
| CastQueues.PushedIsCastOnce | apps/crdt/rapid/crdt_rapid.cpp:146-176 | Under every interleaving each push that producers asked for is queued, held or broadcast in exactly one place and as asked for, no broadcast repeats, and an entry is deferred at most once and only when it was uncertain. |
| CastQueues.LogIsSent | apps/crdt/rapid/crdt_rapid.cpp:372-377 | The log of every run is the sequence of what its decisions broadcast. |
| CastQueues.PushedAsAsked | apps/crdt/rapid/crdt_rapid.cpp:153-159 | In every run the k-th push carries the arguments of the k-th producer. |
| CastQueues.BroadcastAsAsked | apps/crdt/rapid/crdt_rapid.cpp:372-377 | What is broadcast was asked for, and if it was never deferred then by a draw of at most the chance asked for. |
| CastQueues.DeferredIsKept | apps/crdt/rapid/crdt_rapid.cpp:378-382 | What is put back is not broadcast, goes to the end of the queue, and differs in its time and chance alone. |
| CastQueues.NeverEarly | apps/crdt/rapid/crdt_rapid.cpp:166-173 | Nothing is taken out before its time, which for an entry never deferred is the time asked for. |
| CastQueues.DecisionsBounded | apps/crdt/rapid/crdt_rapid.cpp:367-387 | The worker decides at most once per certain push and twice per uncertain one. |
| CastQueues.RoundsDrain | apps/crdt/rapid/crdt_rapid.cpp:367-387 | Each late enough round lowers what remains whatever is drawn, and what remains is zero exactly for an empty queue. |
| CastQueues.DrainedIsCastOnce | apps/crdt/rapid/crdt_rapid.cpp:367-387 | As many late enough rounds as there is potential empty the queue, and what was and what they broadcast holds every push exactly once. |
| Rapid.CastProb | apps/crdt/rapid/crdt_rapid.cpp:492-496 | Up to two neighbours the rebroadcast is certain; among more of them 2.5 rebroadcasts are expected. |
| Rapid.RapidNode.TakePending | apps/crdt/rapid/crdt_rapid.cpp:655-665 | Takes the pending state under its lock, or finds nothing new. |
| Rapid.RapidNode.StoreMessage | apps/crdt/rapid/crdt_rapid.cpp:667-672 | Caches the taken state under the new id. |
| Rapid.RapidNode.FetchLast | apps/crdt/rapid/crdt_rapid.cpp:683-686 | Looks for the last message in the cache. |
| Rapid.RapidNode.QueueMessage | apps/crdt/rapid/crdt_rapid.cpp:674-693 | Queues what there is to send, for certain, and remembers a new message as the last. |
| Rapid.RapidNode.Disseminate | apps/crdt/rapid/crdt_rapid.cpp:654-695 | A round that nothing comes between publishes the pending state under the new id, or repeats the last message while it is cached. |
| Rapid.RapidNode.MakePending | apps/crdt/rapid/crdt_rapid.cpp:625-636 | Merges the delta into the pending state. |
| Rapid.RapidNode.LookUp | apps/crdt/rapid/crdt_rapid.cpp:472 | Goes on only with a message whose id is not cached. |
| Rapid.RapidNode.InsertData | apps/crdt/rapid/crdt_rapid.cpp:473 | Caches it. |
| Rapid.RapidNode.JoinData | apps/crdt/rapid/crdt_rapid.cpp:474-482 | Joins it into the counter. |
| Rapid.RapidNode.Requeue | apps/crdt/rapid/crdt_rapid.cpp:492-505 | Queues it for rebroadcast. |
| Rapid.RapidNode.AcceptData | apps/crdt/rapid/crdt_rapid.cpp:472-506 | A message that nothing comes between is cached, joined and queued exactly when its id was new. |
| Rapid.RapidNode.PickHeaders | apps/crdt/rapid/crdt_rapid.cpp:396-407 | A gossip names distinct cached ids, all of them or fifty. |
| Rapid.RapidNode.CacheCleanup | apps/crdt/rapid/crdt_rapid.cpp:285-296 | Drops exactly the entries older than the time to live. |
| Rapid.PayloadsAreGenuine | apps/crdt/rapid/crdt_rapid.cpp:262-296 | In every run with unique ids every cached, queued or travelling payload is its origin's, and but for the moment between caching and joining every cached payload is below the node's counter. |
| Rapid.StepGrows | apps/crdt/rapid/crdt_rapid.cpp:432-541 | What an id stands for never changes, and counts never fall. |
| Rapid.CasterConserves | apps/crdt/rapid/crdt_rapid.cpp:367-387 | The queue of every node in every run conserves its pushes and stays within its budget of decisions. |
| Rapid.CastIsOnAir | apps/crdt/rapid/crdt_rapid.cpp:374-377 | What a node's worker takes for broadcast is on the air, as the message it was queued as. |
| Rapid.GossipIsShort | apps/crdt/rapid/crdt_rapid.cpp:396-412 | A gossip on the air names between one and fifty ids, all of them published. |
| Rapid.OwnIsAdded | apps/crdt/rapid/crdt_rapid.cpp:608-612 | In every run a node's own count is the sum of its increments, whatever it received. |
| Rapid.TruthIsCreated | apps/crdt/rapid/crdt_rapid.cpp:604-637 | In every run the own counts add up to the sum of all increments. |
| Rapid.LastMessagesSuffice | apps/crdt/rapid/crdt_rapid.cpp:582-697 | At quiescence a node that ever joined each other node's last message reads the sum of all increments ever made, though caches expire. |
| RapidCodec.BuildDataPacket | apps/crdt/rapid/crdt_rapid.cpp:223-229 | Writes type, id, length modulo 2^32 and payload. |
| RapidCodec.ParseData | apps/crdt/rapid/crdt_rapid.cpp:459-470 | Accepts exactly the packets that from the second byte on begin like a built one, and returns its id and payload. |
| RapidCodec.DataRoundTrip | apps/crdt/rapid/crdt_rapid.cpp:223-229 | What the parser answers for a built data packet, whatever bytes follow it, is the message it was built from. |
| RapidCodec.BuildGossipPacket | apps/crdt/rapid/crdt_rapid.cpp:231-240 | Writes type, count modulo 2^16 and ids. |
| RapidCodec.ParseGossip | apps/crdt/rapid/crdt_rapid.cpp:507-523 | Reads as many whole ids as are announced and present. |
| RapidCodec.GossipRoundTrip | apps/crdt/rapid/crdt_rapid.cpp:231-240 | A built list is read back exactly when it has fewer than 65536 ids. |
| RapidCodec.BuildNumberPacket | apps/crdt/rapid/crdt_rapid.cpp:242-252 | Requests and heartbeats: the type and eight bytes. |
| RapidCodec.ParseNumber | apps/crdt/rapid/crdt_rapid.cpp:532-535 | Reads the number back from any packet with eight bytes after its type. |
| RapidCodec.Understand | apps/crdt/rapid/crdt_rapid.cpp:457-548 | The first byte picks the parser, and what the parser refuses is ignored. |
| RapidCodec.DataUnderstood | apps/crdt/rapid/crdt_rapid.cpp:223-229 | A built data packet is taken for its message and for nothing else. |
| RapidCodec.GossipUnderstood | apps/crdt/rapid/crdt_rapid.cpp:231-240 | A built gossip packet is taken for a gossip of its first |ids| mod 65536 ids. |
| RapidCodec.NumberUnderstood | apps/crdt/rapid/crdt_rapid.cpp:242-252 | A request is taken for a request and a heartbeat for a heartbeat, with their number, whatever bytes follow. |
| RapidCodec.DataLayout | apps/crdt/rapid/crdt_rapid.cpp:223-229 | On the wire: 1, the id in eight bytes, the length in four, the payload. |
| RapidCodec.GossipLayout | apps/crdt/rapid/crdt_rapid.cpp:231-240 | On the wire: 2, the count in two bytes, the i-th id in the i-th eight bytes after it. |
| UnionFinds.HalvingKeepsForest | evaluation/compute_degree_sample.py:14-18 | Skipping the parent keeps classes and weights, and the new parent is a root or weighs at least four times as much. |
| UnionFinds.UnionKeepsForest | evaluation/compute_degree_sample.py:20-28 | Hanging the lighter root below the heavier keeps every parent twice as heavy, and root sizes the class sizes. |
| UnionFinds.UnionFind.Find | evaluation/compute_degree_sample.py:14-18 | Returns the root without changing the partition, in at most (log2(n) + 1) / 2 rounds. |
| UnionFinds.UnionFind.Union | evaluation/compute_degree_sample.py:20-28 | Merges exactly the two classes. |
| RangeGraphs.RoundedIsSignBlind | evaluation/compute_degree_sample.py:45-49 | Arithmetic that rounds exact results symmetrically about zero has all that the results below ask of the distance computation. |
| RangeGraphs.TogetherIsConnected | evaluation/compute_degree_sample.py:54-62 | After all edges, two nodes have one root exactly when a path of edges joins them. |
| RangeGraphs.ClassIsComponent | evaluation/compute_degree_sample.py:62-63 | A class is the connected component. |
| RangeGraphs.RootsAreComponents | evaluation/compute_degree_sample.py:62-64 | There are as many roots as components. |
| RangeGraphs.EmbeddedSizes | evaluation/compute_degree_sample.py:41-42 | Renumbering the located nodes keeps components, degrees and their sizes. |
| RangeGraphs.EmbeddedComponents | evaluation/compute_degree_sample.py:41-42 | And the number of components. |
| RangeGraphs.JoinEdges | evaluation/compute_degree_sample.py:54-60 | The loop over the upper triangle leaves sound classes that contain every edge. |
| RangeGraphs.Figures | evaluation/compute_degree_sample.py:43-64 | Degrees, component sizes and the number of components of the renumbered graph. |
| RangeGraphs.Snapshot | evaluation/compute_degree_sample.py:31-68 | For every located node its number of neighbours and the cardinality of its connected component in the range graph, the number of components and of located nodes, and nothing where there is no position. |
| RangeGraphs.NearWhenRounded | evaluation/compute_degree_sample.py:43-50 | With any rounding, two located nodes are near exactly when the rounded sum of the rounded squares of the rounded x and y differences is at most the rounded square of the range. |
| RangeGraphs.NearWhenExact | evaluation/compute_degree_sample.py:43-50 | Without rounding they are near exactly when their distance is at most the range. |
| RangeGraphs.CoordinatesCountAlike | evaluation/compute_degree_sample.py:45-49 | Exchanging the two coordinates of every node changes no neighbourhood and no component. |
| RangeGraphs.ApartInYIsAlone | evaluation/compute_degree_sample.py:45-50 | Where any two nodes are farther apart in y than the range, every node is alone, whatever their x. |

## Left out

- Ids are natural numbers: only their total order is used. Iteration over an ordered container visits the least key not yet visited; where the order does not matter any order is allowed.
- Machine integers: counters and sequence numbers are unbounded, except where a width matters and is written out (32-bit words and ints in the byte formats and the Trickle node, the wrap of the consistent-summary count).
- Threads, sockets, clocks, sleeping, logging and configuration are steps and parameters; a random draw is a parameter, and every value it can take is allowed.
- C++ reference lifetime and copying of `dotkernel::c`: contexts are objects of their own, shared only within `ormap`.
- The entries of `ormap` are dot stores; an operation makes the entry a kernel over the shared context and stores it back. Nested maps, and entries that are other types than kernels, are not modelled.
- `gmap.join` is one pass over the other map's keys instead of two iterators side by side.
- BCounterRuns.LocalIsSafe: amounts in runs are not negative. The code does not check; `DecRights` and `MvRights` say what a negative amount does.
- `orseq.join` and `orseq.reset`: joins are undefined when a position is used again by another dot, and local edits do not need them.
- CounterCodec.Deserialize: where the code would read past the end of its input and store values that were never read, the model returns None.
- Sizes are 8 bytes, ints 4 bytes, both little-endian, as on the machines the code targets.
- TrickleNodes.TrickleNode.LocalOp: the own count must stay below 2^31, where the code's int would overflow.
- TrickleRuns.StepKeepsInv: names are canonical, so a node's counter is its vector; the summary sent as a request is taken in the same step as the comparison, and a later snapshot is covered by an announcement of its own.
- Codecs: packets longer than a receive buffer, which the sockets would cut off.
- Payloads of the broadcast and RAPID applications are counter maps; their byte form is proved on its own in `CounterCodec.dfy`, and an exception while decoding is not modelled.
- Neighbour tracking by heartbeats only chooses the rebroadcast chance; the number of neighbours is a parameter.
- Full coverage by RAPID gossip is not claimed by the code: a round advertises at most 50 cached ids.
- RangeGraphs.Snapshot: a position that is not finite is None; the arithmetic on the others is any one in which the square of a difference does not depend on the order of its operands.
- `ccounter`, `lwwreg`, `lexcounter`, `pncounter` by itself, `gset`, `twopset`, the flags, `rwlwwset`, `bag` and `rwcounter`: further types of the library, on the same kernel or simpler.
- `crdt_multiunicast.cpp` has the delta buffer of the broadcast application with a loop over peers.
- Fault, membership, network and bus classes, runners, scenarios, daemons, the front end, plotting and mobility models.
