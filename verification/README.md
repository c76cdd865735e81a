# A verified model of FIDe and its libbpf

FIDe is an anomaly detector that runs in the kernel as an eBPF program. It counts packets per
source, closes an interval every second and computes an entropy per source in fixed-point
arithmetic. Its repository carries a copy of libbpf. This project models the parts of both with the
most intricate behaviour and proves what they are for.

`dafny verify dfyconfig.toml` checks everything.

| module | models |
|---|---|
| `TypeGraph`, `CanonicalMap`, `BtfTypes`, `DedupSpec` | type graphs and their meaning, the canonical map, type descriptors, and what the deduplication passes must keep |
| `DedupLimits`, `DedupMerge`, `DedupMixed` | which types the equivalence check refuses, which types a merge may join, and an input on which it joins different structs |
| `DedupForwards`, `DedupRefs`, `DedupErrors` | what merging does for forwards, what becomes of references, and when the passes fail |
| `HashMap`, `HashMapRuns` | the chained hash map with growth, and whole runs of it as a map and as a multimap |
| `StringDedup`, `BtfDedup`, `Compaction` | the six passes of `btf__dedup` and its byte-level compaction |
| `DedupIds`, `BtfDedupRun` | what final ids say, and the whole run of `btf__dedup` |
| `XskRing` | the AF_XDP rings shared by one producer and one consumer |
| `DumpSearch`, `DumpErrors`, `DumpOrder`, `DumpRepeat` | the search that orders type definitions as a function, when it fails, the dumper, and a type it dumps twice |
| `CoreBitfield`, `PerfRing`, `LineInfo` | bitfield relocation and its reader, the perf ring reader, the JIT line index |
| `FideIntervals`, `FideCounters`, `FixedPoint` | FIDe's interval claims, counters and fixed-point numbers |
| `Powers`, `Common` | powers of two and division; optional results, error codes and rearranged sequences |
| `BtfSamples` | descriptors for the concrete inputs |

## How it is modelled

A type is a label and the ids it refers to; a graph may be cyclic. Its meaning is the family of its
unfoldings to every finite depth, with names as string contents. Deduplication preserves meaning if
every original id and its final id have equal unfoldings at every depth. The proof of the
equivalence check is a coinduction: the hypothetical map it leaves is closed under children, up to
pairs that already resolve to one id. A forward that is resolved changes meaning by design, so
meaning is kept when forwards are not resolved or when no type is the forward declaration of
another. In the other cases every type of the result is one of those that became it, with its
references translated, and no forward is left where two types that became one had a forward and
another type side by side.

Objects that the code updates in place are classes (`BtfDedup`, `Hashmap`, `BtfDump`, `RingBuffer`,
`Reader`, `ProgLinfo`, `Detector`). Protocols with several parties (`XskRing`, `FideIntervals`) are
state machines whose runs are arbitrary interleavings of their steps. With the flag `memory` every
allocation is granted, without it any of them may fail; `Hashmap.Insert` and `Hashmap.Grow` take one
flag for each allocation. Fixed-width arithmetic is written out wherever it can wrap around.

The callers' obligations are those of the code: parsed BTF with ids in range and descriptors laid
out by kind, equal keys that hash equally, submit within reserve and release within peek, type
cycles that pass through a struct or union, whole and 8-byte aligned perf records, times that leave
room for one more interval in 64 bits. The results on equal meaning also take the type field of a
forward to be 0, as the format has it.

Where code and comments disagree the model follows the code:

- `hashmap.h:77-79` says that find returns the last appended entry of a key. Growth pushes entries
  onto new chain heads and so reverses their order; `GrowthHidesLastAppend` shows the failure and
  `FindAfterAppends` says exactly which entry is found.
- `libbpf.c:3012` says that enum fields are assumed unsigned. The code sets SIGNED for them;
  `EnumReadsBackIff` says when that matters.
- `check_bit` raises `q` before it computes the shift, which is then 0; `CheckBitKeepsValuesIff` says
  when that is harmless.
- The sanity check of a function's length in `bpf_prog_linfo.c:57-58` wraps around in one case, and
  the last function is not checked at all; `WithinLengthIff`, `LengthCheckCanWrap`,
  `AlwaysRightIff` and `LastFunctionCanMiss` say exactly what follows.

## Model

| member | source | states |
|---|---|---|
| `TypeGraph.BisimulationSound` | user+ebpf/main/libbpf/src/btf.c:2136-2224 | Pairs of ids that are closed under taking children, up to pairs already known to be equal, mean the same at every depth: the coinduction behind the hypothetical map |
| `TypeGraph.RewrittenSound` | user+ebpf/main/libbpf/src/btf.c:2548-2654 | Replacing references by ids of the same meaning changes the meaning of no id, in cyclic graphs too |
| `TypeGraph.QuotientSound` | user+ebpf/main/libbpf/src/btf.c:2738-2862 | Collapsing each class to a representative and renumbering all references keeps every unfolding |
| `TypeGraph.UnfoldRelabelled` | user+ebpf/main/libbpf/src/btf.c:1450-1535 | Unfolding commutes with spelling out names, so equal meaning by name offset is equal meaning by name |
| `CanonicalMap.ForestHasNoCycles` | user+ebpf/main/libbpf/src/btf.c:2089-2104 | In a forest no link is reached again from its target, and walking from any id ends at a root that is unmapped or mapped to itself |
| `CanonicalMap.LinkToRoot` | user+ebpf/main/libbpf/src/btf.c:2388-2432 | Linking an id to another root keeps the map a forest |
| `CanonicalMap.LinkFresh` | user+ebpf/main/libbpf/src/btf.c:1991-2072 | Linking an id that nothing points to keeps the map a forest |
| `CanonicalMap.ResolveTypeId` | user+ebpf/main/libbpf/src/btf.c:2099-2104 | The loop ends on every forest and returns the root of the id |
| `BtfTypes.EqualFwdMeans` | user+ebpf/main/libbpf/src/btf.c:1734-1739 | The common comparison holds exactly for equal descriptors of one-reference kinds and forwards |
| `BtfTypes.EqualIntMeans` | user+ebpf/main/libbpf/src/btf.c:1753-1762 | The INT comparison holds exactly for equal descriptors |
| `BtfTypes.EqualEnumMeans` | user+ebpf/main/libbpf/src/btf.c:1777-1796 | The ENUM comparison holds exactly for equal descriptors |
| `BtfTypes.CompatEnumMeans` | user+ebpf/main/libbpf/src/btf.c:1803-1811 | Compatible enums are equal or exactly one of the two is a forward |
| `BtfTypes.ShallowEqualStructMeans` | user+ebpf/main/libbpf/src/btf.c:1839-1858 | The shallow struct comparison holds exactly when everything but the member type ids agrees |
| `BtfTypes.EqualArrayMeans` | user+ebpf/main/libbpf/src/btf.c:1883-1908 | Array equality is descriptor equality, array compatibility is equality of everything but type ids |
| `BtfTypes.EqualFnprotoMeans` | user+ebpf/main/libbpf/src/btf.c:1937-1983 | The same for function prototypes |
| `HashMap.HashBitsInRange` | user+ebpf/main/libbpf/src/hashmap.h:20-24 | The bucket number is below two to the number of bits |
| `HashMap.Hashmap.constructor` | user+ebpf/main/libbpf/src/hashmap.c:32-43 | A new map is valid, has no capacity and no values |
| `HashMap.Hashmap.RoomLeft` | user+ebpf/main/libbpf/src/hashmap.c:82-86 | Growth is needed exactly when one more entry would exceed three quarters of the capacity |
| `HashMap.RehashChain` | user+ebpf/main/libbpf/src/hashmap.c:100-108 | Relinking a chain keeps its entries and puts each key's values, reversed, before those already there |
| `HashMap.RehashAll` | user+ebpf/main/libbpf/src/hashmap.c:100-108 | Relinking every chain keeps the multiset of entries, puts each entry into its new bucket and reverses the order of every key's values |
| `HashMap.Hashmap.Grow` | user+ebpf/main/libbpf/src/hashmap.c:88-116 | Capacity becomes 4 or doubles exactly when the allocation is granted, entries and size stay, and the order of every key's values is reversed; a failed allocation changes nothing |
| `HashMap.Hashmap.FindEntry` | user+ebpf/main/libbpf/src/hashmap.c:118-140 | An entry is found exactly when some value is stored under an equal key, and it is one of those |
| `HashMap.Hashmap.Insert` | user+ebpf/main/libbpf/src/hashmap.c:142-192 | EEXIST and ENOENT exactly when the key is present or absent, overwriting replaces one entry, otherwise one entry is added, or ENOMEM, only when the allocator refuses what is needed, changes nothing; the map grows only when three quarters would be exceeded; bucket placement, power-of-two capacity and unique keys are kept |
| `HashMap.Hashmap.AppendEntry` | user+ebpf/main/libbpf/src/hashmap.h:122-126 | Append adds exactly one entry, or none, and that only without memory; its value comes first under its key, after a growth that reverses the others, and the map grows only when three quarters would be exceeded |
| `HashMap.Hashmap.Find` | user+ebpf/main/libbpf/src/hashmap.c:194-206 | Finds a value exactly when one is stored under an equal key, and then the first in the order of the chain |
| `HashMap.Hashmap.Delete` | user+ebpf/main/libbpf/src/hashmap.c:208-228 | Removes exactly one entry of the key, the first of its chain, and leaves the order of all others, or reports absence and changes nothing |
| `HashMap.Hashmap.KeyEntries` | user+ebpf/main/libbpf/src/hashmap.h:162-168 | Iterating a key meets exactly the values stored under it, in the order of the chain |
| `HashMap.RemovedOrder` | user+ebpf/main/libbpf/src/hashmap.c:208-228 | Unlinking the first entry of a key takes its value from the front of that key and moves no other |
| `HashMap.GrowthFits` | user+ebpf/main/libbpf/src/hashmap.c:82-92 | A map that grew only when three quarters would have been exceeded still has the least such capacity after one more entry |
| `HashMap.ValuesInPermuted` | user+ebpf/main/libbpf/src/hashmap.c:100-108 | The values of a key do not depend on the order of entries, which a rehash reverses |
| `HashMap.InsertedValues` | user+ebpf/main/libbpf/src/hashmap.c:142-192 | After an insertion without APPEND the key has exactly the new value and every other key has what it had |
| `HashMapRuns.RunOperations` | user+ebpf/main/libbpf/src/hashmap.c:82-228 | Any sequence of add, set, update, delete and find answers like a finite map: presence errors exact, find returns the last stored value and the size is the number of keys present, through growth and failed allocations; with memory nothing fails |
| `HashMapRuns.KeyCountUnique` | user+ebpf/main/libbpf/src/hashmap.c:72-75 | The number of keys present is determined by the history |
| `HashMapRuns.RunAppends` | user+ebpf/main/libbpf/src/hashmap.c:82-192 | Any sequence of appends: iterating a key yields exactly the multiset of values successfully appended under it, and with memory all are |
| `HashMapRuns.FindAfterAppends` | user+ebpf/main/libbpf/src/hashmap.h:73-80 | After any sequence of appends find returns the last value appended under the key while the number of bucket bits had its present parity, or the first value if there is none; so it returns the last value appended if and only if the map has grown an even number of times since or those two values are equal. With memory a fresh map grows exactly when three quarters would be exceeded |
| `HashMapRuns.GrowthHidesLastAppend` | user+ebpf/main/libbpf/src/hashmap.h:73-80 | Two appends under one key and two more entries make a fresh map grow, and find returns the older value |
| `HashMapRuns.OlderAppendInFront` | user+ebpf/main/libbpf/src/hashmap.c:105-108 | The same failure at concrete keys and values |
| `HashMapRuns.LineEnds` | user+ebpf/main/libbpf/src/hashmap.c:105-108 | Which appends are at the two ends of a key's values |
| `DedupSpec.SoundResolve` | user+ebpf/main/libbpf/src/btf.c:2099-2104 | Resolving an id does not change its meaning |
| `DedupSpec.ClosedMapSound` | user+ebpf/main/libbpf/src/btf.c:2136-2224 | When forwards are not resolved, the two sides of every pair in a closed hypothetical map mean the same |
| `DedupSpec.NothingMatches` | user+ebpf/main/libbpf/src/btf.c:2248-2290 | When no type is the forward declaration of another, resolving forwards changes no comparison of two descriptors |
| `DedupSpec.RefusalMeans` | user+ebpf/main/libbpf/src/btf.c:2136-2224 | A refusal from a cleared map rules out every closed hypothetical map that would settle the pair; DedupLimits.RefusedIff says for which pairs that is |
| `DedupLimits.RefusedIff` | user+ebpf/main/libbpf/src/btf.c:2136-2360 | No closed map settles a pair, so that the check refuses it, if and only if the two types differ in meaning or are in conflict: paths of positions that meet no settled pair lead from them to one canonical type against two different candidates |
| `DedupLimits.ConflictRefuses` | user+ebpf/main/libbpf/src/btf.c:2226-2242 | A pair in conflict is refused whatever it means: a closed map would have to record both candidates |
| `DedupLimits.ConflictIsOwn` | user+ebpf/main/libbpf/src/btf.c:2226-2242 | A conflict seen with some types already mapped is there with none mapped, so it can be read off the input |
| `DedupLimits.EqualMeaningRefused` | user+ebpf/main/libbpf/src/btf.c:2226-2242 | Two structs of equal meaning that the check refuses: one has a pointer type twice where the other has it once |
| `DedupMerge.ResolveRepresents` | user+ebpf/main/libbpf/src/btf.c:2388-2432 | What a type resolves to has its signature, is what it is the forward of, or has its kind and name and a forward |
| `DedupMerge.MergesUnique` | user+ebpf/main/libbpf/src/btf.c:2388-2432 | The merge has one result |
| `DedupForwards.MergedPairAdvances` | user+ebpf/main/libbpf/src/btf.c:2393-2430 | One merge takes nothing apart that was joined and makes nothing a forward; where one side of its pair resolved to a forward and the other did not, both then resolve to the latter |
| `DedupForwards.PairResolvedBy` | user+ebpf/main/libbpf/src/btf.c:2388-2432 | A pair merged at any point of the loop stays so to its end |
| `DedupForwards.SettledMet` | user+ebpf/main/libbpf/src/btf.c:2226-2432 | Walking in parallel from two types that a closed map settles, whenever one meets a forward on one side and another type on the other, neither resolves to a forward after the merge |
| `DedupForwards.MergeResolves` | user+ebpf/main/libbpf/src/btf.c:2388-2432 | After a positive answer and the merge: the two types are joined, every recorded pair of a forward and another type resolves to no forward on either side, and no forward is left where the two types have one side by side with another type |
| `DedupForwards.MergePartners` | user+ebpf/main/libbpf/src/btf.c:2388-2432 | Every struct or union that a merge links has a forward, or is linked with another of its signature, with no forward left where they meet |
| `DedupForwards.StaysRefused` | user+ebpf/main/libbpf/src/btf.c:2456-2522 | What was refused has been refused under a map that the present one extends |
| `DedupErrors.TargetComparable` | user+ebpf/main/libbpf/src/btf.c:2110-2124 | What a type that can be compared resolves to can be compared |
| `DedupErrors.AllMappedAcyclic` | user+ebpf/main/libbpf/src/btf.c:2548-2669 | When the reference pass has mapped every type, reference types refer to each other in no circle |
| `DedupErrors.UnderWayBelow` | user+ebpf/main/libbpf/src/btf.c:2548-2632 | Without circles a reference never leads back to a type under way |
| `DedupRefs.RefsRootedAdd` | user+ebpf/main/libbpf/src/btf.c:2548-2654 | Recording representatives keeps it that every mapped reference type refers to the roots of what it referred to and equals its representative |
| `DedupRefs.RootsGoOn` | user+ebpf/main/libbpf/src/btf.c:2548-2632 | References that are roots stay the roots of what they were when further types are mapped |
| `DedupIds.PicturedFromMap` | user+ebpf/main/libbpf/src/btf.c:2548-2862 | Every type of the result has the signature of one that became it and its references translated to new ids; reference types refer to the ids of what they referred to |
| `DedupIds.ResolvedFromMap` | user+ebpf/main/libbpf/src/btf.c:2388-2862 | Of two structs or unions with one id one has a forward or shares the id with another of its signature, and where those two have a forward and another type side by side neither became a forward |
| `DedupIds.ComparedFromMap` | user+ebpf/main/libbpf/src/btf.c:2456-2522 | Structs of one signature without forwards get one id, or types of their ids could not be settled while no more types were joined than share an id |
| `DedupIds.EnumsFromMap` | user+ebpf/main/libbpf/src/btf.c:2028-2049 | A forward enum becomes an enum that it stands for, if there is one |
| `DedupMixed.PairsClosed` | user+ebpf/main/libbpf/src/btf.c:2225-2360 | An input with a forward for which the check answers that two structs are equivalent |
| `DedupMixed.StructsMixed` | user+ebpf/main/libbpf/src/btf.c:2388-2432 | Merging what was recorded for that input maps a struct to one of the same name with other members |
| `BtfDedup.BtfDedup.constructor` | user+ebpf/main/libbpf/src/btf.c:1385-1442 | The initial state: void, variables and data sections canonical, everything else unprocessed, a forest with unchanged meaning |
| `BtfDedup.BtfDedup.TableAdd` | user+ebpf/main/libbpf/src/btf.c:1321-1325 | The index gains exactly the pair, or nothing on ENOMEM |
| `BtfDedup.BtfDedup.Candidates` | user+ebpf/main/libbpf/src/btf.c:1318-1319 | The candidates met under a hash are exactly those indexed under it |
| `BtfDedup.BtfDedup.ResolveFwdId` | user+ebpf/main/libbpf/src/btf.c:2110-2124 | A forward stands for the struct or union it resolves to |
| `BtfDedup.BtfDedup.HypotMapAdd` | user+ebpf/main/libbpf/src/btf.c:1327-1342 | Records one more pair, in map and list alike, and uses up one unprocessed slot |
| `BtfDedup.BtfDedup.ClearHypotMap` | user+ebpf/main/libbpf/src/btf.c:1344-1351 | No pair is recorded afterwards |
| `BtfDedup.CompareLocally` | user+ebpf/main/libbpf/src/btf.c:2248-2345 | Answers 1 exactly for descriptors compatible up to type ids and 0 exactly for incompatible ones, an error only for kinds that cannot be compared |
| `BtfDedup.BtfDedup.IsEquiv` | user+ebpf/main/libbpf/src/btf.c:2225-2360 | Ends on every graph. A positive answer leaves every recorded pair compatible and all child pairs recorded or resolving to one id, with the asked pair settled; the answer 0 is given only when no closed extension of the map settles the pair; an error only without memory or when types that cannot be compared are referred to |
| `BtfDedup.BtfDedup.ExpandPair` | user+ebpf/main/libbpf/src/btf.c:2245-2360 | The same for a recorded pair |
| `BtfDedup.BtfDedup.EquivAll` | user+ebpf/main/libbpf/src/btf.c:2291-2352 | The same for a list of child pairs |
| `BtfDedup.BtfDedup.FindEqualPrim` | user+ebpf/main/libbpf/src/btf.c:2016-2062 | Returns an equal candidate, or the type itself exactly when no candidate equals it |
| `BtfDedup.BtfDedup.ResolveEnum` | user+ebpf/main/libbpf/src/btf.c:2028-2049 | A full enum redirects its forward candidates to itself, a forward enum goes to an enum it stands for, otherwise an equal candidate is taken; the map stays a forest; unless forwards are not resolved no forward candidate is left pointing elsewhere |
| `BtfDedup.BtfDedup.MapPrim` | user+ebpf/main/libbpf/src/btf.c:2016-2067 | Recording a representative keeps the map a forest and sound |
| `BtfDedup.BtfDedup.PrimType` | user+ebpf/main/libbpf/src/btf.c:1991-2072 | Keeps the invariant of the primitive pass, index included |
| `BtfDedup.ChoiceKeeps` | user+ebpf/main/libbpf/src/btf.c:2016-2067 | Whatever candidate is chosen, the map stays a forest whose links keep meaning, and no two canonical primitives are equal |
| `BtfDedup.BtfDedup.PrimTypes` | user+ebpf/main/libbpf/src/btf.c:2074-2084 | On success every primitive is mapped, plain primitives to an equal one, no two canonical INTs, ENUMs or FWDs are equal, and when forwards are resolved every forward enum leads to an enum it stands for, if there is one; it fails only without memory or at a type of unknown kind |
| `BtfDedup.PlainPrimsAgree` | user+ebpf/main/libbpf/src/btf.c:1991-2084 | At the end of the pass two INTs, FWDs or full ENUMs have the same canonical id if and only if their descriptors are equal, whatever the hashes: the index agrees with a scan of all earlier types |
| `BtfDedup.BtfDedup.MergePair` | user+ebpf/main/libbpf/src/btf.c:2393-2430 | Merging one pair changes the map as the pure step does |
| `BtfDedup.BtfDedup.MergeHypotMap` | user+ebpf/main/libbpf/src/btf.c:2388-2432 | The map afterwards is the result of merging the recorded pairs one after the other |
| `BtfDedup.CheckedKeeps` | user+ebpf/main/libbpf/src/btf.c:2388-2432 | After a positive answer merging keeps the map a forest and mapped ids mapped, joins only types that may take the place of each other, and keeps meaning unless there are forwards to resolve |
| `BtfDedup.BtfDedup.TryCandidate` | user+ebpf/main/libbpf/src/btf.c:2494-2502 | Refuses exactly the pairs that no closed map settles. On equivalence the recorded pairs are closed and settle the two types, which are joined; of no recorded pair with a forward on one side and another type on the other is either side left resolving to a forward; and the two mean the same unless there are forwards to resolve |
| `BtfDedup.BtfDedup.MergeChecked` | user+ebpf/main/libbpf/src/btf.c:2388-2432 | The part after a positive answer: what was checked is merged |
| `BtfDedup.BtfDedup.FindStruct` | user+ebpf/main/libbpf/src/btf.c:2475-2503 | A candidate of the same signature, or the type itself only if no candidate of its signature can be settled with it |
| `BtfDedup.BtfDedup.MapStruct` | user+ebpf/main/libbpf/src/btf.c:2475-2505 | Records that choice, keeping forest and meaning |
| `BtfDedup.BtfDedup.StructType` | user+ebpf/main/libbpf/src/btf.c:2456-2510 | Keeps all invariants and maps the struct or union: without forwards to resolve to a struct of its meaning that it is not in conflict with, or to itself exactly when it is in conflict with every indexed struct of its meaning |
| `BtfDedup.BtfDedup.StructTypes` | user+ebpf/main/libbpf/src/btf.c:2512-2522 | On success every struct and union is mapped; canonical ones of one signature were refused; each one that is represented by another has a forward or a partner of its signature with no forward left where they meet; and, without forwards to resolve, canonical structs of equal meaning are in conflict |
| `BtfDedup.BtfDedup.FindEqualRef` | user+ebpf/main/libbpf/src/btf.c:2576-2643 | Returns an equal candidate, or the type itself exactly when no candidate equals it |
| `BtfDedup.BtfDedup.RefType` | user+ebpf/main/libbpf/src/btf.c:2548-2654 | Ends on every graph; a non-negative result is the root of the type, which means the same when forwards are not resolved; it changes only ids not reached before and keeps canonical reference types pairwise different; ELOOP only at a circle of references, ENOMEM only without memory |
| `BtfDedup.BtfDedup.RefOperands` | user+ebpf/main/libbpf/src/btf.c:2566-2632 | Each reference is rewritten in place to the root of what it was, which keeps the meaning of every type |
| `BtfDedup.BtfDedup.RecordRef` | user+ebpf/main/libbpf/src/btf.c:2576-2653 | Maps the type to an equal canonical type or makes it canonical |
| `BtfDedup.BtfDedup.RefTypes` | user+ebpf/main/libbpf/src/btf.c:2656-2669 | On success every id is mapped, canonical reference types refer to canonical types only, no two of them have equal descriptors, each refers to the roots of what it referred to, and there are no circles of references; it fails only without memory or at such a circle |
| `BtfDedup.RefTableAdd` | user+ebpf/main/libbpf/src/btf.c:2548-2654 | A type that equals none of the candidates under its hash equals no canonical reference type |
| `BtfDedup.BtfDedup.CompactTypes` | user+ebpf/main/libbpf/src/btf.c:2682-2730 | The result is void followed by exactly the self-mapped descriptors at their new ids |
| `BtfDedup.NewIdsIncrease` | user+ebpf/main/libbpf/src/btf.c:2682-2730 | New ids are positive, not above the old id and increase with it |
| `BtfDedup.NewIdsOnto` | user+ebpf/main/libbpf/src/btf.c:2682-2730 | Every number from 1 to the count of self-mapped ids is the new id of one of them |
| `BtfDedup.CompactStep` | user+ebpf/main/libbpf/src/btf.c:2682-2730 | The slot overwritten in a step holds no descriptor that is still needed |
| `BtfDedup.BtfDedup.RemapTypeId` | user+ebpf/main/libbpf/src/btf.c:2738-2747 | Cannot fail once every id is mapped, and returns the new id of the root |
| `BtfDedup.BtfDedup.RemapType` | user+ebpf/main/libbpf/src/btf.c:2759-2850 | Cannot fail, and replaces every reference by its final id |
| `BtfDedup.BtfDedup.RemapTypes` | user+ebpf/main/libbpf/src/btf.c:2852-2862 | Cannot fail, and does so for every type |
| `BtfDedup.RemapKeepsMeaning` | user+ebpf/main/libbpf/src/btf.c:2738-2862 | Every id means the same as its final id in the remapped graph |
| `BtfDedup.NoDuplicates` | user+ebpf/main/libbpf/src/btf.c:2682-2862 | Renumbering is injective on canonical ids, so no two INTs, no two ENUMs, no two reference types and no two plain forwards of the output are equal |
| `BtfDedup.StructEnd` | user+ebpf/main/libbpf/src/btf.c:2388-2522 | After the struct pass every link leads to a mapped id, with forwards resolved or not, and canonical primitives differ |
| `BtfDedup.KeepShapes` | user+ebpf/main/libbpf/src/btf.c:2388-2862 | Every type becomes one of its signature, or is a forward that became what it stands for, or a struct that has a forward and kept its kind and name |
| `BtfDedup.FinalReferencesHold` | user+ebpf/main/libbpf/src/btf.c:2548-2862 | Every type ends as one that refers to what its root referred to, and reference types refer to what they referred to themselves |
| `BtfDedup.EnumsFollowed` | user+ebpf/main/libbpf/src/btf.c:2028-2084 | Redirected forward enums end at an enum they stand for |
| `BtfDedup.RefsKeepStructs` | user+ebpf/main/libbpf/src/btf.c:2548-2669 | The reference pass takes nothing apart: partners, refusals and redirected enums stay |
| `BtfDedup.StructsJoined` | user+ebpf/main/libbpf/src/btf.c:2456-2522 | Structs of equal meaning end with one representative, or their representatives are in conflict |
| `BtfDedup.MeaningsJoined` | user+ebpf/main/libbpf/src/btf.c:1239-1263 | When no structs of equal meaning are in conflict and there are no variables, two types get one id if and only if they mean the same |
| `BtfDedup.BtfDedup.MapTypes` | user+ebpf/main/libbpf/src/btf.c:1239-1254 | The three mapping passes: on success all ids are mapped, forwards are resolved where structs met them, and the map tells meanings apart as MeaningsJoined says; it fails only as DedupTypes does |
| `BtfDedup.BtfDedup.Finish` | user+ebpf/main/libbpf/src/btf.c:2682-2862 | Compaction and remapping together keep every meaning, and give every type a signature that may take the place of its own |
| `BtfDedup.BtfDedup.DedupTypes` | user+ebpf/main/libbpf/src/btf.c:1239-1263 | The canonical map is a forest at the end, however the passes ended. With memory they fail only at types of unknown kind, references to types that cannot be compared, or circles of references. On success all ids are mapped, every type keeps its shape and refers to what its root referred to, structs represented by others leave no forward where they met one, forward enums follow, and canonical structs of one signature were refused; unless there are forwards to resolve every original type means the same as the type it became, and structs of equal meaning share an id unless they are in conflict; no two INTs, ENUMs, reference types or plain forwards are left equal |
| `StringDedup.BuildIndex` | user+ebpf/main/libbpf/src/btf.c:1624-1646 | The index holds every string start once, in offset order; it fails only without memory |
| `StringDedup.MarkUsed` | user+ebpf/main/libbpf/src/btf.c:1564-1579 | Succeeds exactly when every visited reference is 0 or a string start, and marks all of them |
| `StringDedup.Search` | user+ebpf/main/libbpf/src/btf.c:1555-1562 | The binary search finds the pointer with the offset exactly when there is one |
| `StringDedup.EmitStrings` | user+ebpf/main/libbpf/src/btf.c:1660-1704 | Used strings are stored at their new offset, in sorted order and with nothing in between; two share an offset exactly when they are equal; the empty string is at 0 |
| `StringDedup.ArrangeGroup` | user+ebpf/main/libbpf/src/btf.c:1686-1698 | Emitting a group adds one string start, that of a used string, behind all others |
| `StringDedup.RemapRefs` | user+ebpf/main/libbpf/src/btf.c:1581-1596 | Every reference becomes the new offset of its string, and only a reference to no string is an error |
| `StringDedup.RemappedPreserved` | user+ebpf/main/libbpf/src/btf.c:1697-1716 | Through both sorts and the rewrite, visited references keep denoting their strings |
| `StringDedup.RemappedTrimmed` | user+ebpf/main/libbpf/src/btf.c:1609-1722 | Every string of the new section is the empty one or is referred to, and its strings strictly ascend |
| `StringDedup.DedupStrings` | user+ebpf/main/libbpf/src/btf.c:1609-1722 | Each visited offset denotes the same string as before, equal strings share one offset, distinct ones do not, the empty string is at 0; the new section holds no string that is not referred to, each once and in ascending order, and is no longer than the old; EINVAL exactly for a reference that is no string start, ENOMEM only without memory |
| `BtfDedupRun.StoreSlots` | user+ebpf/main/libbpf/src/btf.c:1450-1535 | Every type takes back exactly its own string references, in the order of the walk |
| `BtfDedupRun.StringPass` | user+ebpf/main/libbpf/src/btf.c:1450-1722 | Spelt out, the graph after the string pass is the graph before it, no two offsets its types refer to hold the same string, and the section holds nothing else |
| `BtfDedupRun.IrredundantSpelt` | user+ebpf/main/libbpf/src/btf.c:1223-1268 | Types that differ by name offset still differ when their names are spelt out |
| `BtfDedupRun.SameSpeltIff` | user+ebpf/main/libbpf/src/btf.c:1450-1722 | When no two offsets hold the same string, types mean the same by offset if and only if they do by name |
| `BtfDedupRun.IdsSpelt` | user+ebpf/main/libbpf/src/btf.c:1223-1268 | What the type passes say of ids and meanings by offset holds by name, for the types as they came |
| `BtfDedupRun.BlameRenamed` | user+ebpf/main/libbpf/src/btf.c:1223-1268 | Renumbered types fail only for what the types as they came are to blame for |
| `BtfDedupRun.ForwardsSpelt` | user+ebpf/main/libbpf/src/btf.c:1223-1268 | That no forward is left where it met another type holds by name as it does by offset |
| `BtfDedupRun.MergedSpelt` | user+ebpf/main/libbpf/src/btf.c:1223-1268 | What the type passes do to renumbered types, told of the types as they came |
| `BtfDedupRun.TypePasses` | user+ebpf/main/libbpf/src/btf.c:1239-1263 | Passes 2 to 6 on a fresh state, told of ids |
| `BtfDedupRun.Dedup` | user+ebpf/main/libbpf/src/btf.c:1223-1268 | The whole of btf__dedup, names compared as strings. With memory it fails only at a reference that is no string start, types of unknown kind or that cannot be compared, and circles of references. In every mode each type becomes one of its signature, or is a forward that became what it stands for, or a struct that has a forward and kept kind and name; each type of the result is one of those that became it with its references translated, and reference types refer to what they referred to; structs with one id leave no forward where they met one, structs of one signature without forwards get one id or could not be settled, and unless told otherwise forward enums became enums; no two INTs, ENUMs, reference types or plain forwards of the output are equal; the string section holds just the strings referred to, and line information keeps its strings. With dont_resolve_fwds, or when no type is the forward declaration of another: for every original id and every depth the unfolding equals that of its final id; structs of equal meaning get one id unless their ids are in conflict; and if none are, and there are no variables, two types get one id if and only if they mean the same |
| `Compaction.Memmove` | user+ebpf/main/libbpf/src/btf.c:2711-2727 | Overlapping moves copy what was there before the move and touch nothing else |
| `Compaction.InfoInMemory` | user+ebpf/main/libbpf/src/btf.c:145-178 | The length of a descriptor can be read back from its bytes |
| `Compaction.PackOne` | user+ebpf/main/libbpf/src/btf.c:2697-2712 | Moving a descriptor down overwrites no descriptor still to be copied and no string |
| `Compaction.PackTypes` | user+ebpf/main/libbpf/src/btf.c:2697-2712 | The loop leaves the self-mapped descriptors packed in order and the pointers at them |
| `Compaction.CompactMemory` | user+ebpf/main/libbpf/src/btf.c:2682-2730 | Afterwards memory holds the header, the packed descriptors and right behind them the unchanged string section |
| `Compaction.CompactSection` | user+ebpf/main/libbpf/src/btf.c:2682-2730 | On the bytes of a type section: afterwards memory holds the type section of the compacted graph, the pointers of the new ids lead to its descriptors, and the strings follow directly behind |
| `Compaction.CompactedSection` | user+ebpf/main/libbpf/src/btf.c:2682-2730 | Those bytes are the type section of the compacted graph, whatever the encoding of a descriptor |
| `XskRing.RingBuffer.constructor` | user+ebpf/main/libbpf/src/xsk.c:274-280 | The ring as set up, with the invariant: all indices 0, the producer's cached consumer ahead by the size |
| `XskRing.RingBuffer.ReserveEntries` | user+ebpf/main/libbpf/src/xsk.h:116-126 | Keeps the invariant; all or nothing, granted exactly when enough slots are free, and the index follows the entries already reserved |
| `XskRing.RingBuffer.WriteEntry` | user+ebpf/main/libbpf/src/xsk.h:48-55 | Keeps the invariant; the value written is recorded for its entry |
| `XskRing.RingBuffer.SubmitEntries` | user+ebpf/main/libbpf/src/xsk.h:128-136 | Keeps the invariant; the next reserved entries are appended to the queue, each as it was written, and are reserved no more |
| `XskRing.RingBuffer.PeekEntries` | user+ebpf/main/libbpf/src/xsk.h:138-154 | Keeps the invariant; the number obtained is the lesser of the one asked for, in 32 bits, and of the entries known to the consumer, which are all those submitted once it has used up the ones it knew; they follow those it holds |
| `XskRing.RingBuffer.ReadEntry` | user+ebpf/main/libbpf/src/xsk.h:56-76 | A held entry reads as the entry submitted that far after the released ones |
| `XskRing.RingBuffer.ReleaseEntries` | user+ebpf/main/libbpf/src/xsk.h:156-164 | Keeps the invariant; the oldest held entries are released |
| `XskRing.Drive` | user+ebpf/main/libbpf/src/xsk.h:85-164 | Driving the ring structures through any interleaving: they go through the states of a queue in unbounded numbers that grants reservations exactly when they fit and hands out exactly what is known, and all that the consumer reads, in order, is a prefix of all that was submitted, each entry as it was last written |
| `XskRing.DriveOne` | user+ebpf/main/libbpf/src/xsk.h:85-164 | One step of either side is one step of that queue |
| `XskRing.SlotOfCounter` | user+ebpf/main/libbpf/src/xsk.h:48-76 | Masking a wrapped 32-bit index finds the slot of the unbounded counter |
| `XskRing.NbFreeKeeps` | user+ebpf/main/libbpf/src/xsk.h:85-102 | The count of free entries is exact for the cached index, and short only after a refresh |
| `XskRing.StepKeeps` | user+ebpf/main/libbpf/src/xsk.h:85-164 | Every allowed step keeps the chain of the six counters, all unreleased entries in their slots and all written entries as written |
| `XskRing.RunKeeps` | user+ebpf/main/libbpf/src/xsk.h:85-164 | The invariant holds throughout every interleaving, 32-bit wrap-around included |
| `XskRing.ConsumerReadsFifo` | user+ebpf/main/libbpf/src/xsk.h:138-164 | The k-th entry the consumer holds is the entry submitted k after the released ones, and is what the producer last wrote to it |
| `XskRing.PeekHandsOutNext` | user+ebpf/main/libbpf/src/xsk.h:104-154 | A peek continues where the last one ended; it obtains the lesser of what is asked for and what is known, and knows everything submitted once it has used up what it knew |
| `XskRing.OccupancyBounded` | user+ebpf/main/libbpf/src/xsk.h:85-164 | Submitted and reserved entries never exceed the released ones by more than the size |
| `XskRing.ReservationOutcome` | user+ebpf/main/libbpf/src/xsk.h:85-126 | In every run a reservation is all or nothing and is granted exactly when enough slots are free |
| `XskRing.ReservationIsExclusive` | user+ebpf/main/libbpf/src/xsk.h:116-126 | A reserved slot is the slot of no entry that is unreleased or already reserved |
| `DumpSearch.FollowsUnique` | user+ebpf/main/libbpf/src/btf_dump.c:403-544 | A search that ends has one result, whatever depth it is given |
| `DumpSearch.FollowsTouches` | user+ebpf/main/libbpf/src/btf_dump.c:403-544 | A search changes the state only of types that it can reach along the references it follows |
| `DumpSearch.SearchMarks` | user+ebpf/main/libbpf/src/btf_dump.c:494-510 | A typedef is marked when it is queued, and at no other time |
| `DumpSearch.TypedefTwiceIff` | user+ebpf/main/libbpf/src/btf_dump.c:494-510 | A typedef that is queued when its search ends stands in the queue twice if and only if the search of its target has marked it already |
| `DumpErrors.SearchOutcome` | user+ebpf/main/libbpf/src/btf_dump.c:403-544 | A search fails only when it leads to a type of unknown kind, or to a type that it is under way with or that contains itself by value; otherwise it queues nothing that it does not lead to |
| `DumpErrors.FollowsOutcome` | user+ebpf/main/libbpf/src/btf_dump.c:403-544 | On a dumper with nothing under way: EINVAL only when the type leads to one of unknown kind, ELOOP only when it leads to one that leads back to itself by value or through anonymous structs |
| `DumpRepeat.TypedefQueuedTwice` | user+ebpf/main/libbpf/src/btf_dump.c:403-544 | The search of a typedef of a function type whose parameter leads back to it queues it twice |
| `DumpRepeat.DumpCallback` | user+ebpf/main/libbpf/src/btf_dump.c:198-235 | Dumping that typedef on a fresh dumper with memory succeeds, and emits it before and after the struct |
| `DumpOrder.BtfDump.OrderType` | user+ebpf/main/libbpf/src/btf_dump.c:403-544 | Ends when all cycles pass through structs or unions, with the result of the pure search unless memory runs out; a strong result, or any result by value, means that everything embedded has been queued |
| `DumpOrder.BtfDump.OrderComposite` | user+ebpf/main/libbpf/src/btf_dump.c:448-477 | A named struct or union is queued last, after everything it embeds, and is then ordered |
| `DumpOrder.BtfDump.OrderTypedef` | user+ebpf/main/libbpf/src/btf_dump.c:494-510 | A typedef reported as strong is queued last, after everything it embeds, and is then ordered |
| `DumpOrder.BtfDump.OrderEnum` | user+ebpf/main/libbpf/src/btf_dump.c:478-492 | An enum or forward is queued exactly when it is named or not referenced, and is then ordered |
| `DumpOrder.BtfDump.OrderProto` | user+ebpf/main/libbpf/src/btf_dump.c:516-534 | Ordering return and parameter types in turn keeps the queue consistent and ends, with the result of the pure search |
| `DumpOrder.BtfDump.DumpType` | user+ebpf/main/libbpf/src/btf_dump.c:198-235 | With memory it fails only when the type leads to one of unknown kind (EINVAL) or to a circle by value or through anonymous structs (ELOOP), and succeeds otherwise; then everything embedded in the type is queued, nothing is queued that it does not lead to, and nothing is under way; the state is that of the pure search |
| `DumpOrder.SearchEnds` | user+ebpf/main/libbpf/src/btf_dump.c:198-235 | How the search ends is how the call ends, told of the graph alone; a success shows that no named struct in reach by value embeds itself |
| `DumpOrder.DumpableEnds` | user+ebpf/main/libbpf/src/btf_dump.c:198-235 | With memory a type that leads to no unknown kind and to no circle is dumped |
| `DumpOrder.QueuedOnce` | user+ebpf/main/libbpf/src/btf_dump.c:448-477 | A queue without repeats in which everything comes after what it embeds holds no struct that embeds itself |
| `DumpOrder.DumpAll` | user+ebpf/main/libbpf/src/btf_dump.c:198-235 | A run of calls succeeds when every type can be dumped and there is memory. Then each named struct or union, enum, forward and typedef that its own target does not lead back to is emitted at most once, each named struct or union and each typedef after every named struct or union it embeds by value, everything embedded in a dumped type is emitted, and nothing that no dumped type leads to |
| `CoreBitfield.CalcWindow` | user+ebpf/main/libbpf/src/libbpf.c:2972-2987 | The loop ends with the smallest aligned word from the declared size on that holds the field, and fails exactly when no word up to 8 bytes does |
| `CoreBitfield.WindowValue` | user+ebpf/main/libbpf/src/bpf_core_read.h:24-28 | A little-endian load of a window is that stretch of the memory's bits |
| `CoreBitfield.ReadBitfield` | user+ebpf/main/libbpf/src/bpf_core_read.h:49-59 | With relocations that describe a field the reader yields exactly its bits, zero- or sign-extended |
| `CoreBitfield.ShiftsLeaveField` | user+ebpf/main/libbpf/src/bpf_core_read.h:53-57 | Shifting left then right leaves exactly the field, zero- or sign-extended |
| `CoreBitfield.ReadIsField` | user+ebpf/main/libbpf/src/libbpf.c:3004-3029 | With the relocated offset, size and shifts the reader yields exactly the field's bits |
| `CoreBitfield.RelocateAndRead` | user+ebpf/main/libbpf/src/libbpf.c:2967-3029 | For every memory and every bitfield of storage size 1, 2, 4 or 8: relocation succeeds exactly when some word fits, and then the value read is the field |
| `CoreBitfield.EnumReadsBackIff` | user+ebpf/main/libbpf/src/libbpf.c:3011-3017 | Enum fields are sign-extended, so they read back unchanged exactly when the top bit is clear or the field has all 64 bits |
| `PerfRing.Memcpy` | user+ebpf/main/libbpf/src/libbpf.c:5752-5753 | Copies the bytes and touches nothing else |
| `PerfRing.MaskedPosition` | user+ebpf/main/libbpf/src/libbpf.c:5733-5733 | Masking the wrapped 64-bit position finds the slot of the stream position |
| `PerfRing.RecordInRing` | user+ebpf/main/libbpf/src/libbpf.c:5733-5755 | A record is the bytes up to the end of the ring and, if it wraps, the rest from its start |
| `PerfRing.Reader.Fetch` | user+ebpf/main/libbpf/src/libbpf.c:5736-5755 | Returns the record in one piece, or fails only without memory, when it wraps and the buffer is too small |
| `PerfRing.Reader.ReadNext` | user+ebpf/main/libbpf/src/libbpf.c:5732-5762 | One turn delivers the record found at the tail and moves the tail behind it, or fails only where the record cannot be joined |
| `PerfRing.Reader.ReadSimple` | user+ebpf/main/libbpf/src/libbpf.c:5719-5765 | Delivers the records from tail to head in order and byte for byte until the callback or an allocation stops it; the published tail is the start of the first undelivered record, and is the head exactly when there is none; an allocation can stop it only without memory and at a record that wraps and exceeds the buffer |
| `LineInfo.ProgLinfo.Dissect` | user+ebpf/main/libbpf/src/bpf_prog_linfo.c:22-86 | Succeeds exactly when the records can be dissected, and then fills the index with the starts and lengths of the runs |
| `LineInfo.StartsUnique` | user+ebpf/main/libbpf/src/bpf_prog_linfo.c:44-75 | There is at most one dissection |
| `LineInfo.RunsPartition` | user+ebpf/main/libbpf/src/bpf_prog_linfo.c:22-86 | Every record belongs to exactly one function |
| `LineInfo.RunsBeginAtSymbols` | user+ebpf/main/libbpf/src/bpf_prog_linfo.c:22-86 | Every run is non-empty and begins at its function's address |
| `LineInfo.WithinLengthIff` | user+ebpf/main/libbpf/src/bpf_prog_linfo.c:56-59 | In every function but the last all addresses lie within its length, except exactly when the check wraps around for a function at 0 with a record at the greatest address |
| `LineInfo.LengthCheckCanWrap` | user+ebpf/main/libbpf/src/bpf_prog_linfo.c:56-59 | A dissection for which the check wraps around and a record lies outside its function |
| `LineInfo.ProgLinfo.LfindAddrFunc` | user+ebpf/main/libbpf/src/bpf_prog_linfo.c:180-216 | Returns the last of the leading records not above the address, or none when there is none or the arguments are out of range |
| `LineInfo.FindsGreatest` | user+ebpf/main/libbpf/src/bpf_prog_linfo.c:180-216 | In every function but the last that is the one record with the greatest address not above the query |
| `LineInfo.AlwaysRightIff` | user+ebpf/main/libbpf/src/bpf_prog_linfo.c:44-80 | In a run that is not checked, lookups separate lower from higher addresses for every query exactly when addresses never fall |
| `LineInfo.LastFunctionCanMiss` | user+ebpf/main/libbpf/src/bpf_prog_linfo.c:44-80 | A successful dissection whose last function makes a lookup miss a record |
| `FideCounters.Detector.Receive` | fully_in-kernel/main/xdp_prog_kern.c:188-324 | One packet changes the counters as the step function of the runs does, whose effect is stated outright: the stored time becomes that of a counted packet exactly when it is more than one interval later, the packet counts roll over exactly then and when a time was stored before, and every source is counted, rolled over or left alone |
| `FideCounters.ReceivedEffect` | fully_in-kernel/main/xdp_prog_kern.c:188-324 | That effect, source by source |
| `FideCounters.ClockRun` | fully_in-kernel/main/xdp_prog_kern.c:284-324 | Over every run: the first counted packet later than one interval starts the clock, every later one that is more than one interval after the last stored time rolls over, and no other does; the packet counts are those since the last rollover and between the last two |
| `FideCounters.SourceRun` | fully_in-kernel/main/xdp_prog_kern.c:148-274 | Over every run with room in the logger: each source is counted as often as it sent since the last rollover and between the last two |
| `FideCounters.Detector.DetectAll` | fully_in-kernel/main/xdp_prog_kern.c:148-186 | Visiting the sources in any order drops the silent ones with non-zero entropy and starts the others over |
| `FideCounters.CountSourceSums` | fully_in-kernel/main/xdp_prog_kern.c:257-274 | Counting a source adds one to the sum, up to wrap-around, unless the logger is full |
| `FideCounters.RolledOverSums` | fully_in-kernel/main/xdp_prog_kern.c:148-186 | A rollover turns the sum of current counts into the sum of previous ones |
| `FideCounters.Conserved` | fully_in-kernel/main/xdp_prog_kern.c:237-274 | Over every run of packets, in 32-bit arithmetic, the counts of all sources and the packets left out add up to the global counts of both intervals |
| `FideCounters.SumsMatchIffNoneLost` | fully_in-kernel/main/xdp_prog_kern.c:237-324 | While no interval reaches 2^30 packets the sums equal the global counts if and only if no source was left out, and int_bits is the larger of 4 and the bit length plus one |
| `FideCounters.BitsFollow` | fully_in-kernel/main/xdp_prog_kern.c:241-248 | The step of int_bits follows the bit length of the packet count |
| `FideCounters.NothingLost` | fully_in-kernel/main/xdp_prog_kern.c:257-274 | Nothing is left out of a run in which the logger has room |
| `FideIntervals.StepKeeps` | fully_in-kernel/main/xdp_prog_kern.c:284-306 | Every step of every CPU keeps the spacing of the stored times, mutual exclusion and the account of rollovers |
| `FideIntervals.RunKeeps` | fully_in-kernel/main/xdp_prog_kern.c:284-306 | That invariant holds in every interleaving of any number of CPUs, with stale unlocked reads and clock values out of order |
| `FideIntervals.ClaimsAreSpaced` | fully_in-kernel/main/xdp_prog_kern.c:284-306 | Stored times strictly increase and claims are more than one interval apart |
| `FideIntervals.OneInsideTheLock` | fully_in-kernel/main/xdp_prog_kern.c:287-306 | No two CPUs are inside the lock |
| `FideIntervals.EachLaterClaimRollsOnce` | fully_in-kernel/main/xdp_prog_kern.c:288-306 | The first claim starts no rollover, every later one exactly one, in order |
| `FideIntervals.ClaimedIffOver` | fully_in-kernel/main/xdp_prog_kern.c:284-306 | Inside the lock a claim is made exactly when the packet is more than one interval later than the latest stored time, and a rollover is due exactly when a time was stored before |
| `FideIntervals.HandledAlone` | fully_in-kernel/main/xdp_prog_kern.c:284-306 | A CPU that handles a packet undisturbed stores its time exactly when the interval is over, and rolls over exactly when a time was stored before, whatever it read before taking the lock |
| `FixedPoint.CountZero64` | fully_in-kernel/main/fixed-point.h:35-78 | 64 minus the bit length on [0, 2^31), and -1 elsewhere |
| `FixedPoint.CountZero32` | fully_in-kernel/main/fixed-point.h:80-117 | 32 minus the bit length on [0, 2^31), and -1 elsewhere |
| `FixedPoint.CheckBitKeepsValuesIff` | fully_in-kernel/main/fixed-point.h:119-132 | Aligning two numbers keeps their values exactly when their q agree or the number with the smaller q is zero |
| `FixedPoint.Add` | fully_in-kernel/main/fixed-point.h:134-151 | The 32-bit sum of the numbers, at the greater q, rounded down to the fraction bits that are kept: the lesser of q and of the bit length of the sum |
| `FixedPoint.Subtract` | fully_in-kernel/main/fixed-point.h:153-170 | The same for the difference, negative ones included |
| `FixedPoint.RawQuotientIsFloor` | fully_in-kernel/main/fixed-point.h:210-210 | The nested floors are floor(a * 2^q / b), with a negative dividend read as unsigned |
| `FixedPoint.Divide` | fully_in-kernel/main/fixed-point.h:207-225 | The quotient a / b of the numbers, at the greater q, rounded down to the fraction bits that are kept, the lesser of q and of the bit length of floor(a * 2^q / b), for a >= 0 and b > 0 if and only if a * 2^q < 2^31 * b; zero for a divisor that is not positive |

## Left out

- Resolution of forwards: when some type is the forward declaration of another and forwards are resolved, no equality
  of meaning is claimed, since a forward then stands for a struct. Proved instead is how the result pictures the
  types that became it (DedupIds.Pictured) and that no forward is left where two types that became one met it. A
  struct that has a forward may be merged with another of its name; DedupMixed.StructsMixed is such an input.
- DedupForwards.MergeResolves: forwards met behind a forward, or behind types represented alike, are not counted as
  met, since the check looks no further there.
- DedupErrors.ProperRefs: that a type that cannot be compared is referred to is necessary for EINVAL with memory and
  not sufficient: the check may never come to it.
- DumpErrors.FollowsOutcome: leading to an unknown kind or to a circle is necessary for the errors and not
  sufficient, as types that were ordered before are not searched again; DumpOrder.SearchEnds gives the part of the
  converse that holds, that success rules out named structs in reach that embed themselves.
- Completeness of deduplication: false of the code for structs in conflict, see DedupLimits.EqualMeaningRefused;
  DedupLimits.RefusedIff is the exact condition for one check, BtfDedupRun.Dedup says when whole runs are complete.
  Variables and data sections are never merged.
- Bucket chains, the hypothetical list, the emit queue and the string section are sequences that the
  methods reassign, so pointer links within a chain and buffer capacities are not modelled.
- StringDedup.Qsort: stands for the C library's sort; callers use only that the result is a sorted
  arrangement.
- The walk over string references covers types, members, enumerators, parameters and line
  information, as the code's does; function information and field relocations are not visited.
- BtfDedup.BtfDedup.PrimTypes: the contract gives the pass invariant; the if-and-only-if over pairs of types is the
  lemma PlainPrimsAgree.
- HashMap.Hashmap.Grow: capacities above 2^60 are taken to fail allocation; hashmap__clear, which
  leaves the bucket pointer set, is not modelled.
- Memory barriers of the rings: steps are sequentially consistent; `idx & mask` is `idx % size` for a
  power-of-two size.
- DumpOrder.BtfDump.OrderEnum: which types are referenced is a parameter, not recomputed from the graph.
- DumpOrder.DumpAll: at-most-once leaves out typedefs that their own target leads back to. The search does not mark
  a typedef while it is under way and can queue such a one twice, see DumpRepeat.TypedefQueuedTwice; not every one
  is, and DumpSearch.TypedefTwiceIff says when.
- CoreBitfield.RelocateAndRead: little-endian targets only; plain fields, array accesses and the
  search for candidate types are not modelled.
- PerfRing.Reader.ReadSimple: the ring's contents are fixed during a call; the kernel only writes
  beyond the head that was read.
- LineInfo.ProgLinfo.LfindAddrFunc: works on record indices, so the 32-bit products of index and record
  size in the code are not modelled; nor is the lookup by instruction offset, which repeats the loop.
- FideCounters.Detector.Receive: one packet at a time; the entropy value is opaque, only whether it is zero is used;
  the blacklist is fixed, as the code that would extend it is commented out.
- FixedPoint.Divide: for different q it divides the bare numbers, as the code does, which is the quotient of the
  values only in the cases of CheckBitKeepsValuesIff; multiply, calc_log and the entropy formula have
  no clean value claim and are not modelled.
- ELF, netlink and system-call plumbing, loaders, socket set-up, packet parsing, and the C text
  printed by the dumper.
