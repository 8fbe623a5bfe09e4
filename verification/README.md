# What the router firmware's trickier code promises, proved

This project models the parts of the firmware tree whose correctness is not obvious from reading
one function, and proves what they promise for every input, every run or every reachable state.
Everything is Dafny 4.11; `dafny verify dfyconfig.toml` checks it.

- `kconfig/`: the configuration language of `config/`. Dependencies are trees over three values
  (no < mod < yes; and = min, or = max, not = 2 - x). The optimiser rewrites such trees in place:
  it pushes negations inwards, drops constants, merges duplicate operands, matches modulo
  associativity and commutativity, and turns expressions into comparisons. The model keeps the
  rewriting of `expr_eliminate_dups` on an object whose slots (`struct expr **`) are paths into its
  tree, with both slots possibly the same. `menu_finalize` and the walk of `conf_write` run on
  heap-allocated menu entries with next, list and parent pointers. `sym_calc_value` is a memoised
  evaluator with a VALID set, mutual recursion and choice groups; its definition is a recursion
  over a ranking of the symbols, for configurations without dependency cycles; `KLaws` says case by case
  what its values are.
- `hash/`: SHA-1 and two MD5 implementations, each against the published definition: circular
  queue against 80 words, a loop with rotating registers and unrolled rounds against the 64 steps,
  and three buffering codes with three ways to count bits against one padded message. The definitions
  themselves are pinned down by the published digests of "abc".
- `image/`: the CRC, the firmware image that `asustrx` builds, and `mtd_write`, which checks it again in
  pieces and writes it block by block to a flash device that may have broken blocks.
- `net/`: where firewall rules go in a chain and what a packet meets first, and the bit fields of a
  6rd address.
- `json/`: the `js0n` scanner, an automaton over bytes with jump tables, against the grammar of JSON, and
  which texts it rejects.
- `login/`: the messages of the BPALogin protocol and its heartbeat limiter.

What the source updates in place is a class, an array or a loop here, proved against a function or
predicate that says what it is for; the lemmas beside it prove what that promises. Conventions:
`Keeps(x, y)` says that `y` has the value of `x` in every well-typed assignment where `x` is not mod;
`Equiv` drops that exception.

Places where the code does not do what one would expect, with the exact condition:

- `expr_eliminate_dups2` turns `(FOO || BAR) && (!FOO && !BAR)` into n although it is m when both
  are m (`KClash.ClashLosesMod`). Clearing an operand is right exactly in the assignments where the
  whole tree is not mod (`KClash.ClashExact`).
- `expr_trans_compare` of a negated symbol is wrong exactly when the symbol is mod
  (`KCompare.TransCompareNegated`); for any tree it is right exactly where reading ! as two-valued
  makes no difference (`KCompare.TransCompareRight`). `expr_trans_bool` fails under a negation
  (`KCompare.TransBoolUnderNot`). Neither breaks the adoption of menu entries.
- `expr_eliminate_eq` follows pointers that are none when both its arguments are of one type other
  than && and || (`KExprEq.MayCross`). `expr_eq` never calls it so; `menu_finalize` does, for an entry
  with the prompt condition `if !Z` followed by one that depends on !FOO (`KFinalize.TwoNegations`).
  The exact condition is `KFinalize.Undefined`. Here both sides are left alone then, which takes the
  follower in exactly if nothing is demanded of the entry (`KFinalize.UndefinedTaken`).
- `sym_set_tristate_value` on a member of a choice marks the choice as set by the user, and what is in
  its place takes over. If the choice counted as new and had m there, the member ends at m
  (`KSetValue.PickMayFail`). This is a state of the function alone: a choice that counts as new has n
  in its place once the files are parsed, `conf_read` leaves no choice new, setting values keeps it so
  (`KSetValue.NewStaysNo`), and then a pick that is let pass ends at y, unless modules depend on the
  choice or the member is shown without it (`KSetValue.PickWorks`). In any state, whether a pick works
  can be told before (`KSetValue.PickThenGet`).
- The jump table of `js0n` is a static variable: a text that ends inside a number, a word or a string,
  or at an error there, makes the next call begin there (`JText.LeftOver`). When a call is not spoilt
  is `JText.ScanText`.
- `js0n` rejects the byte 127 in a string, which JSON allows (section 7 of RFC 8259), and spoils the next
  call (`JText.DelFails`). On all other texts of RFC 8259 below 2^16 bytes whose value is an array or
  object a first call is right (`JText.ReportsJson`).
- `locate_parm` never ends exactly on a message in which it meets a field of length 0 before the one
  it looks for (`LTransaction.EndlessExactly`), which no message built with `add_field_*` contains.
  `extract_valuestring` copies a negative number of bytes when the field it finds says it is shorter
  than its own head (`LTransaction.ShortFieldWild`); when extraction from a received message goes wild is
  `LTransaction.WildExactly`.
- The image builder writes no offsets for files that are not given, and leaves up to 64 bytes behind the
  last file as they were in memory; the checksum covers both (`ITrx.OneFileShows`, `ITrx.GapOfOnes`). The
  image does not depend on what malloc found if and only if there are three files, and no footer or no
  gap before it (`ITrx.IndependentExactly`). When the footer does not fit behind the files the program
  writes outside its buffer (`ITrx.InsideExactly`).
- `ipv6_map6rd` touches the word behind the address for prefixes of 97 to 127 bits, and writes back
  what it finds there (`NSixRd.Map6rd`).
- Four heartbeats may pass the limiter in one second, the fifth does not (`LHeartbeat.FourMayPass`).

## Model

| member | source | states |
|---|---|---|
| KExpr.TwoValuedCalc | config/expr.c:906-945 | without a mod symbol or constant an expression is never mod |
| KExpr.EliminateYNCalc | config/expr.c:210-291 | removing y and n keeps the three-valued meaning in every well-typed assignment |
| KExpr.EliminateYNShrinks | config/expr.c:210-291 | nothing removable is left, trees without y or n are untouched, and any other tree gets strictly smaller: what the rounds of expr_eliminate_dups need to end |
| KExprEq.CrossOutCommon | config/expr.c:126-157 | what __expr_eliminate_eq crosses out under either operator is a common part: both old sides are that part together with their new side |
| KExprEq.EliminateEqCommon | config/expr.c:159-166 | the same for expr_eliminate_eq, which first fits the operator to the two sides |
| KExprEq.MayCross | config/expr.c:126-166 | expr_eliminate_eq looks at nothing but trees exactly if the types of its arguments differ or are both "and" or both "or" |
| KExprEq.ExprEqSound | config/expr.c:171-208 | trees that expr_eq calls equal have the same value in every assignment; the mutual recursion ends |
| KExprEq.NormalizeIsAC | config/expr.c:171-208 | the normal form used to state exactness identifies trees up to order and grouping of operands, and is a congruence |
| KExprAC.NormalFormsAC | config/expr.c:171-208 | and it identifies no others: two normal forms are equal if and only if every congruence with the laws of associativity and commutativity makes the trees equal |
| KExprEq.CrossOutRemaining | config/expr.c:126-157 | the greedy pairing never misses a match: what is left of each side is exactly the multiset difference of its operands |
| KExprEq.ExprEqExact | config/expr.c:171-208 | on trees without y and n constants expr_eq is true if and only if the trees are equal modulo associativity and commutativity |
| KTransform.Transform | config/expr.c:605-740 | terminates although De Morgan steps re-enter it on more nodes: a weight that doubles under a negation never grows |
| KTransform.TransformCalc | config/expr.c:605-740 | the three-valued meaning is kept |
| KTransform.TransformNormal | config/expr.c:605-740 | afterwards negation stands only before non-constant symbols, and no comparison of a boolean with y or n is left |
| KTransform.NormalFixed | config/expr.c:605-740 | a tree is left alone if and only if it is in that normal form |
| KTransform.TransformIdempotent | config/expr.c:605-740 | a second transformation changes nothing |
| KJoin.JoinOrCalc | config/expr.c:325-385 | every rule for "or" gives a tree with the value of the disjunction, mod included |
| KJoin.JoinAndCalc | config/expr.c:387-471 | every rule for "and" gives a tree with the value of the conjunction, mod included |
| KJoin.JoinCalc | config/expr.c:325-471 | both, as the merging uses them |
| KJoin.JoinShape | config/expr.c:325-471 | a merged operand is one of the two or a single node, never a new spine, and saves a node |
| KJoin.JoinExactly | config/expr.c:325-471 | there is a rule exactly for operands that expr_eq calls equal and for the pairs that the comments beside the rules list, in either order, and it gives exactly what is listed |
| KJoin.ExtractEqCalc | config/expr.c:795-844 | expr_extract_eq moves a part from both sides to what it has collected, without changing the meaning of either |
| KJoin.ExtractFactors | config/expr.c:795-844 | after extraction both sides are the common part together with a rest of their own |
| KSlots.SpineCalc | config/expr.c:473-523 | the value of a spine of equal operators is that of one operand together with all others, also after that operand is replaced in place |
| KDups.JoinStep | config/expr.c:499-520 | one merge, the neutral constant in the first slot and the merged tree in the second, keeps the value of the whole tree and counts one |
| KDups.ClashStep | config/expr.c:543-573 | one clearing step changes values only where the tree was mod, and counts one |
| KTree.Tree.EliminateDups1 | config/expr.c:473-523 | over every pair of operands below two slots, also when both are the same slot: exactly the tree and the count of the pass as a function, only below the slots; meaning kept, and nothing counted exactly when no rule applies |
| KTree.Tree.MergeOperands | config/expr.c:489-521 | the part for two different operands, with the inner pass over the operands of the first |
| KTree.Tree.EliminateDups2 | config/expr.c:525-579 | the same for the clearing pass, which also goes on with the operands of the second tree; values change only where they were mod |
| KTree.Tree.SplitSecond | config/expr.c:536-541 | the walk into the operands of the second tree |
| KTree.Tree.ClearOperand | config/expr.c:543-576 | one operand against one node of the other spine, by extraction of the common part of its negation |
| KTree.Tree.EliminateDups | config/expr.c:581-603 | the rounds end, with exactly the tree that the rounds as a function come to; every value but mod is kept; size and normal form are kept; trans_count is restored; at every level, as far as no y or n occurs, different operands of the result differ by more than order and grouping, are none of the pairs that merge, and none contradicts another node; a tree with such a duplicate gets smaller, and one with nothing to merge or clear is untouched |
| KPasses.DupsFormMeans | config/expr.c:581-603 | what the rounds come to on any tree: the same value wherever it was not mod, no larger, nothing left to merge or clear, and unchanged if there was nothing |
| KPasses.RoundKeeps | config/expr.c:587-601 | a round that counted something ends with a strictly smaller tree, one that did not changes nothing, and one without clearing keeps all three values |
| KSettled.NoMergePairs | config/expr.c:473-523 | a merging pass counts nothing if and only if no pair of different operands has a rule and nothing within them does |
| KSettled.NoClashPairs | config/expr.c:525-579 | a clearing pass counts nothing if and only if no operand clashes with another node of the spine and nothing within them does |
| KSettled.SettledMinimal | config/expr.c:581-603 | the trees expr_eliminate_dups ends with, and leaves alone, are exactly those where, at every level, no two operands have a rule and none clashes |
| KSettled.SettledReduced | config/expr.c:581-603 | where no rule of the two passes applies, no two operands are equal modulo associativity and commutativity, none of the listed pairs is left, and no operand is contradicted, at every level |
| KSettled.DuplicateShrinks | config/expr.c:581-603 | expr_eliminate_dups makes every tree smaller in which two operands are equal or mergeable, or one is contradicted, at any level |
| KClash.KeepsTwoValued | config/expr.c:581-603 | over y/n assignments the result equals the input |
| KClash.ClashExact | config/expr.c:525-579 | a clearing step keeps the value in an assignment if and only if the tree is not mod there |
| KClash.ClashLosesMod | config/expr.c:525-579 | a concrete tree and assignment where m becomes n |
| KClash.SelfExtract | config/expr.c:795-844 | extracting a tree without y and n operands from itself leaves nothing on either side |
| KClash.ClashMeans | config/expr.c:543-573 | an operand is cleared if and only if every operand of its negation is an operand of the other side, as a multiset |
| KCompare.TransCompareCalc | config/expr.c:846-904 | the comparison made by expr_trans_compare is never mod, its = and != forms are complementary, and it is right wherever the expression is y or n |
| KCompare.TransCompareSafe | config/expr.c:846-904 | "!= n" being y implies the expression is not n, and follows from it being y, with mod symbols too |
| KCompare.TransCompareNegated | config/expr.c:846-904 | under a negation it is exact if and only if the symbol is not mod |
| KCompare.TransCompareExact | config/expr.c:846-904 | without mod it is exact |
| KCompare.TransCompareReads | config/expr.c:846-904 | for every tree and assignment the comparison is right about the tree with ! read as a two-valued operation |
| KCompare.TransCompareRight | config/expr.c:846-904 | so it is right about the value if and only if that reading and the value agree on the value compared with |
| KCompare.TransBoolCalc | config/expr.c:296-320 | on normal forms expr_trans_bool never raises a value and keeps "is not n" both ways |
| KCompare.TransBoolGone | config/expr.c:296-320 | no != n with a tristate symbol is left, and exactly the trees without one are left alone |
| KCompare.TransBoolUnderNot | config/expr.c:296-320 | outside normal forms it fails exactly where the symbol is mod |
| KCompare.NotMentioned | config/expr.c:742-764 | a symbol that expr_contains_symbol does not find has no influence on the value |
| KCompare.MentionsExactly | config/expr.c:742-764 | a symbol is found exactly if giving it another name changes the expression |
| KCompare.NeedsCalc | config/expr.c:766-793 | if expr_depends_symbol finds a dependency, the expression is n whenever the symbol is n |
| KCompare.NeedsExactly | config/expr.c:766-793 | a dependency is found exactly if one of the operands of && is the symbol, or says that it is y, that it is m, or that it is not n |
| KCompare.ImpliedCalc | config/menu.c:182-191 | crossing out until the base is y means the condition is never larger than the base |
| KCompare.ImpliedExactly | config/menu.c:182-191 | without y and n among the operands crossing out leaves y exactly if both are conjunctions and every operand of the base is one of the condition, as multisets |
| KCompare.AdoptionSound | config/menu.c:172-191 | the whole chain of compare, transform, merge and cross out: a fully selectable entry has a parent that is not hidden |
| KPropagate.AllocAndCalc | config/expr.c:51-56 | expr_alloc_and with a NULL side is the conjunction |
| KPropagate.Narrow | config/menu.c:150-153 | a dependency becomes its conjunction with the parent's, up to mod, freed of duplicates, and stays in normal form |
| KPropagate.NarrowProperty | config/menu.c:161-166 | the condition of a property is narrowed likewise; for symbols that are not tristate it keeps "is not n", and no != n is left in it |
| KPropagate.PropagateOne | config/menu.c:150-167 | one turn narrows an entry by the parent's dependency and its own properties, no others, by the entry's new one |
| KPropagate.PropagateList | config/menu.c:149-168 | the loop narrows exactly the entries of the list; those below them stay as they were |
| KPropagate.Propagate | config/menu.c:131-168 | the same from the parent, with the dependency chosen by choice, prompt or dep |
| KPropagate.HiddenBelow | config/menu.c:131-168 | so an entry and all its prompts are n wherever the choice it was declared below is n, the prompt above it is not shown, or, without one, the dependency above it is n |
| KFlatten.Reparent | config/menu.c:216-220 | every entry of a list gets the grandparent as parent, and the last one is found |
| KFlatten.Hoist | config/menu.c:221-223 | a list is spliced in behind its parent, which keeps no list |
| KFlatten.FlattenOne | config/menu.c:215-224 | one entry: what is below it follows it if it has no prompt text, and stays below it otherwise |
| KFlatten.Flatten | config/menu.c:203-225 | the outer loop over a list that grows under it ends with FlatForm of the list, preorder kept |
| KFlatten.FlatFormFlat | config/menu.c:215-224 | in the flat list only entries with a prompt text have entries below them |
| KFlatten.FlatFormFixed | config/menu.c:215-224 | flattening leaves a list alone exactly when that holds already, so it moves nothing without need |
| KFlatten.FlatFormKeeps | config/menu.c:215-224 | and no more than needed: what is below an entry of the flat list was below it before, and entries of the list with a prompt text keep all of it |
| KFlatten.FlatFormDeep | config/menu.c:169-225 | when everything below the entries of a list is flat at every level, the flattened list is, too |
| KFinalize.AdoptedMeans | config/menu.c:177-191 | an adopted entry is fully selectable only if the symbol of its new parent is on or the parent is shown |
| KFinalize.ShouldAdopt | config/menu.c:177-191 | the test of the adoption loop, exactly: the entry is taken in if and only if it mentions the symbol, and cannot do without it or, with both conditions compared with n, transformed and freed of duplicates, crossing out leaves y; any other entry is refused |
| KFinalize.AdoptedExactly | config/menu.c:177-191 | the test in terms of operands: the entry contains the symbol, and one of its operands demands that the symbol is not n, or what it is compared as covers what the condition above is compared as |
| KFinalize.TwoNegations | config/menu.c:177-191 | a concrete entry and follower for which expr_eliminate_eq is called with two negations |
| KFinalize.UndefinedTaken | config/menu.c:183-191 | for every entry and follower where expr_eliminate_eq is undefined, leaving both sides alone takes the follower in if and only if the condition above compares as y |
| KFinalize.Finalizer.constructor | config/menu.c:123-130 | before the run every entry is as declared and none is narrowed |
| KFinalize.Finalizer.Finalize | config/menu.c:123-226 | the preorder stays; exactly the entry and those below it afterwards are finalised, once each and in order; an entry without a list takes in followers up to the first that is refused; the list becomes FlatForm, flat at every level; every narrowed entry was narrowed once by what its declared parent demands; all pointers are right |
| KFinalize.Finalizer.Arrange | config/menu.c:131-202 | the part before flattening: children narrowed and finalised, or followers taken in |
| KFinalize.Finalizer.ArrangeList | config/menu.c:149-170 | narrowing the list, then the recursion: every entry below is narrowed, nothing else is |
| KFinalize.Finalizer.Narrowing | config/menu.c:131-168 | every entry of the list is narrowed by what its parent demands; what was narrowed before stays as it was |
| KFinalize.Finalizer.FinalizeAll | config/menu.c:169-170 | the recursion over the list keeps its order and finalises each entry once |
| KFinalize.Finalizer.TryNext | config/menu.c:177-195 | one follower: taken in and finalised when it passes the test, untouched when it does not |
| KFinalize.Finalizer.AdoptLoop | config/menu.c:175-196 | the followers taken in are the longest run that passes the test: each does, is finalised and has the new parent, and the next one does not |
| KFinalize.Finalizer.Adopt | config/menu.c:171-202 | the loop and the relinking: two well-formed lists, together the old entries in the old order |
| KFinalize.FinalizeTree | config/menu.c:123-226 | from the root: every entry is narrowed once by what the entry above its declaration demands in the end |
| KWalk.Climb | config/confdata.c:329-334 | going up stops at the first ancestor that has a follower, and only when nothing is left at the root |
| KWalk.Walk | config/confdata.c:241-335 | the stackless walk visits every entry below the root exactly once, in preorder |
| KWalk.FinalizeAndWrite | config/menu.c:123-226 | finalising and the walk both go through all entries once in the declared order; every entry is narrowed by its declared parent's final condition; only entries with a prompt text keep entries below them; when the root hands down a normal form, or nothing, all conditions end as normal forms, so that entries that are not tristate are narrowed without exception |
| KWalk.NormalBelow | config/menu.c:149-168 | conditions narrowed from a normal form downwards, level by level as declared, are normal forms |
| KConfig.CalcAgree | config/expr.c:906-945 | the value of an expression depends on the symbols it mentions only |
| KConfig.VisibleAt | config/symbol.c:137-151 | the visibility of a symbol is determined by the symbols its prompts can reach |
| KLaws.VisibleIsMost | config/symbol.c:137-151 | the visibility is at least every prompt's condition, and equal to one of them unless it is n |
| KLaws.UnsetTakesDefault | config/symbol.c:195-208 | a visible symbol that the user has not set has the value of its first enabled default, cut to its visibility, raised from n to it when n cannot be chosen, and without m where the type in force has none |
| KLaws.UnsetWithoutDefault | config/symbol.c:195-208 | without an enabled default, and for a choice, it starts from n, or the empty text |
| KLaws.SetTakesValue | config/symbol.c:204-212 | a visible symbol that the user has set has the user's value, cut, raised and rounded likewise |
| KLaws.HiddenTakesDefault | config/symbol.c:217-224 | a hidden symbol has the value of its first enabled default, whatever the user has set |
| KLaws.HiddenWithoutDefault | config/symbol.c:217-224 | and n, or the empty text, without one |
| KLaws.UserPicks | config/symbol.c:242-248 | a choice that is y picks the member the user has picked, as long as that is visible |
| KLaws.DefaultPicks | config/symbol.c:249-259 | otherwise its first default that is enabled and visible |
| KLaws.MemberPicks | config/symbol.c:261-270 | otherwise its first visible member |
| KEvaluate.Evaluator.CalcExpr | config/expr.c:906-945 | evaluation on demand gives the value of the expression under the assignment as it is then, with every symbol of it VALID |
| KEvaluate.Evaluator.CalcVisibility | config/symbol.c:137-151 | the visibility is the maximum of the prompt conditions, and without cycles the one of the definition |
| KEvaluate.Evaluator.CalcValue | config/symbol.c:153-285 | ends on every configuration, cyclic ones included (the set of symbols that are not VALID shrinks); the symbol is VALID afterwards, what was VALID is kept, and what becomes VALID is right |
| KEvaluate.Evaluator.Make | config/symbol.c:186-285 | the same for a symbol that is not VALID yet, with the pick of a choice at the end |
| KEvaluate.Evaluator.MakeValue | config/symbol.c:186-240 | the value of the symbol is the defined one; a choice has no pick yet unless it needs none |
| KEvaluate.Evaluator.Want | config/symbol.c:195-224 | user value or default, limited by visibility, raised when not optional, or the choice's say |
| KEvaluate.Evaluator.ByDefault | config/symbol.c:218-223 | the value by the first enabled default |
| KEvaluate.Evaluator.FindDefault | config/symbol.c:124-135 | the first default whose condition is not n |
| KEvaluate.Evaluator.Adjust | config/symbol.c:226-238 | boolean symbols, and tristate ones without modules, never end at mod |
| KEvaluate.Evaluator.Choose | config/symbol.c:242-273 | the user's pick if it is visible, else the first enabled visible default, else the first visible member |
| KEvaluate.Evaluator.Query | config/symbol.c:153-285 | in whatever order symbols are asked for, the memoised value equals the recursive definition, values once VALID stay, the assignment is always well-typed, and no boolean symbol is mod |
| KChoice.MemberYes | config/symbol.c:213-216 | a fully visible member is y exactly when its choice has picked it, and n otherwise |
| KChoice.AtMostOne | config/symbol.c:213-216 | of the fully visible members of a choice at most one is y |
| KChoice.PicksVisible | config/symbol.c:242-273 | a choice that is y picks a visible member as soon as it has one |
| KChoice.NoModules | config/symbol.c:81-94 | without modules nothing boolean or tristate is mod |
| KSetValue.SetThenGet | config/symbol.c:331-357 | a value that sym_set_tristate_value lets pass, other than y for a member of a choice, is the value of the symbol after the next evaluation |
| KSetValue.PassesExactly | config/symbol.c:306-336 | a value other than y for a member of a choice is let pass exactly if the symbol has it already, or is visible and has it once it is set |
| KSetValue.PickThenGet | config/symbol.c:331-357 | a member set to y is y after the next evaluation if and only if the value its choice is going to have, and the visibility this gives it, let it |
| KSetValue.PickClears | config/symbol.c:331-357 | every other member that is going to be fully visible is n then |
| KSetValue.SetThenRead | config/symbol.c:331-357 | setting any value and reading again, with the guard that recomputes only on a change: the value is there if and only if it was let pass and, for a new pick, the condition above holds |
| KSetValue.PickMayFail | config/symbol.c:331-357 | a concrete state, a choice that counts as new with m in its place, where setting a member that is n to y is let pass and makes it m |
| KSetValue.NewStaysNo | config/symbol.c:331-357 | no sequence of values set by the user leaves a choice new with another value than n in its place |
| KSetValue.PickWorks | config/symbol.c:331-357 | then setting a member to y ends at y whenever it is let pass, if the member is hidden while its choice is n and has no m or does not depend on modules that change with the choice |
| KSetValue.ValSame | config/symbol.c:153-285 | a change of user values has no effect on symbols that rank below it |
| HWords.DecodeEncode | authcli/globals.c:14-71 | decoding what was encoded gives the words back, in both byte orders |
| HWords.EncodeDecode | authcli/globals.c:14-71 | and encoding what was decoded the bytes |
| HWords.EncodeInto | authcli/globals.c:33-45 | encode_rev and encode write exactly these bytes, and nothing else |
| HWords.DecodeInto | authcli/globals.c:65-71 | decode_rev and decode fill the words |
| HWords.Memcpy | bpalogin/gen_md5.c:309-316 | the copying loop replaces exactly the range |
| HSha1.QueueWord | authcli/sha1.c:173-178 | the three look-ups with MASK find the words 3, 8 and 14 back, so the circular queue yields word t of the schedule |
| HSha1.QueueNext | authcli/sha1.c:186-188 | storing it in slot t mod 16 makes the queue hold the last 16 words again |
| HSha1.Stage | authcli/sha1.c:170-209 | each of the four loops is 20 steps of the definition |
| HSha1.Transform | authcli/sha1.c:163-219 | with 16 words the block function is the one with 80 words, for every state and block (sections 7 and 8 of FIPS 180-1) |
| HMd5Bits.SameF | lanauth/md5.c:39 | the xor form of F is the and/or form of RFC 1321 |
| HMd5Bits.SameG | lanauth/md5.c:40 | likewise G |
| HMd5.Worder | lanauth/md5.c:58-63 | the word table is i, 1+5i, 5+3i, 7i modulo 16 |
| HMd5.Rorder | lanauth/md5.c:65-70 | the rotation table repeats the four shifts of each round |
| HMd5.Loop | lanauth/md5.c:122-141 | the four loops with rotating registers are the 64 steps of section 3.4 of RFC 1321 |
| HMd5.CompressLoop | lanauth/md5.c:103-216 | md5_compress is the block function |
| HMd5.MacroIsBump | bpalogin/gen_md5.c:91-94 | the order of additions in FF, GG, HH and II does not matter |
| HMd5.Quarter | bpalogin/gen_md5.c:191-261 | four statements with registers in the roles abcd, dabc, cdab, bcda are four steps |
| HMd5.Round1 | bpalogin/gen_md5.c:191-207 | the 16 statements of round 1, with their literal words, shifts and constants, are steps 1 to 16 |
| HMd5.Round2 | bpalogin/gen_md5.c:209-225 | round 2 is steps 17 to 32 |
| HMd5.Round3 | bpalogin/gen_md5.c:227-243 | round 3 is steps 33 to 48 |
| HMd5.Round4 | bpalogin/gen_md5.c:245-261 | round 4 is steps 49 to 64 |
| HMd5.Transform | bpalogin/gen_md5.c:184-272 | MD5Transform is the same block function |
| HStream.BlocksAppend | authcli/sha1.c:114-123 | folding blocks may stop and go on at any block boundary |
| HStream.PaddedWhole | authcli/sha1.c:135-156 | the padded message is a whole number of blocks |
| HContext.CountsMean | authcli/sha1.c:104 | the two 32-bit words hold the bit length modulo 2^64, and bits 3 to 8 of the low word the fill of the buffer |
| HContext.CountsAdd | authcli/sha1.c:106-109 | the addition with carry detection and the shifted-out bits of the size is addition modulo 2^64 |
| HContext.PaddingIs | authcli/sha1.c:145-147 | the prefix of PADDING chosen by index is the padding of the standard |
| HContext.Context.Update | authcli/sha1.c:99-128 | after any piece the context is that of the longer message: blocks folded, tail buffered, bits counted |
| HContext.Context.Absorb | authcli/sha1.c:114-123 | filling the buffer once and then taking blocks straight from the input |
| HContext.Context.Final | authcli/sha1.c:135-156 | the digest is that of the padded message |
| HContext.Context.SavedBits | authcli/sha1.c:141-142 | the eight length bytes, in the byte order of the hash |
| HContext.Context.Wipe | authcli/sha1.c:155 | nothing of the message is left in the context |
| HContext.EncodeStrn | authcli/sha1.c:70-78 | the one-piece digest |
| HContext.DigestPieces | bpalogin/gen_md5.c:100-178 | for every split of a message into pieces the digest is that of the whole message (SHA-1 and MD5) |
| HAbc.Sha1Abc | authcli/sha1.c:70-219 | the digest of "abc" is that of appendix A of FIPS 180-1, worked out through its 64 computed words and 80 steps |
| HAbc.Md5Abc | bpalogin/gen_md5.c:100-272 | the digest of "abc" is that of section A.5 of RFC 1321, worked out through its 64 steps |
| HProcess.HashState.Process | lanauth/tomcrypt_hash.h:341-375 | the buffering loop, for any input length and fill, is one longer message; the length counts folded blocks only |
| HProcess.HashState.Take | lanauth/tomcrypt_hash.h:351-373 | one turn makes progress and keeps the state right |
| HProcess.HashState.Pad | lanauth/md5.c:275-296 | one or two blocks of padding in the buffer, with the length, are the padding of RFC 1321 |
| HProcess.HashState.Done | lanauth/md5.c:260-307 | the digest is that of sections 3.1 to 3.5 of RFC 1321 |
| HProcess.BothDigests | lanauth/md5.c:260-307 | the two MD5 implementations give the same digest for every message, however it is cut for either |
| ICrcBits.ShiftLinear | asustrx/asustrx.c:312-320 | a step of the shift register is linear |
| ICrc.BitsXor | asustrx/asustrx.c:312-320 | so are any number of steps |
| ICrc.TableStep | asustrx/asustrx.c:358 | one table look-up is eight shift/xor steps of polynomial 0xedb88320 |
| ICrc.CrcConcat | brcm-src-2.6/rts/src/crc.c:280-290 | the checksum of a concatenation continues the checksum of its first part |
| ICrc.Crc32 | asustrx/asustrx.c:360-372 | the loop with table look-ups computes the bitwise definition, from any start value |
| ICrc.CheckValue | asustrx/asustrx.c:360-372 | the digits 1 to 9 give the check value of this CRC, not inverted |
| ICrc.FourBytes | asustrx/asustrx.c:312-320 | four bytes are 32 steps on the register xored with the word they make |
| ICrc.CrcInjective | asustrx/asustrx.c:360-372 | different registers stay different over any data |
| ICrc.BurstDetected | asustrx/asustrx.c:360-372 | two inputs that differ only within four bytes in a row have different checksums |
| ITrx.Aligned | asustrx/asustrx.c:204-213 | every file starts at a multiple of four |
| ITrx.AddFile | asustrx/asustrx.c:185-213 | a file is accepted exactly when it ends before the buffer does; it lies behind the others, its offset is in the header, nothing before it changes |
| ITrx.AddFooter | asustrx/asustrx.c:216-232 | footer at the end of the last page, not over the files; the gap between is what was in memory for as many bytes as the footer has, then zeros |
| ITrx.GapCleared | asustrx/asustrx.c:216-232 | the gap is zero for every memory if and only if there is no footer or it ends at a page |
| ITrx.GapOfOnes | asustrx/asustrx.c:216-232 | a concrete memory that shows through in 64 bytes |
| ITrx.InsideExactly | asustrx/asustrx.c:216-232 | clearing the last page stays inside the buffer if and only if the footer fits behind the files |
| ITrx.Seal | asustrx/asustrx.c:234-238 | the checksum is over everything from flag_version on, and storing checksum and length does not change that |
| ITrx.Build | asustrx/asustrx.c:157-248 | for all files: which are too large, when the program would leave its buffer, and otherwise the whole image: header words, offsets, what memory held in place of the others, files, gap and footer, in whole pages |
| ITrx.FileAt | asustrx/asustrx.c:185-232 | in every image built, each file stands where its offset in the header says, and the footer at the end |
| ITrx.BuiltIs | asustrx/asustrx.c:157-248 | files, footer and memory determine the image: what is built is one function of them, and that image is built |
| ITrx.IndependentExactly | asustrx/asustrx.c:183-238 | the image is the same for every memory if and only if there are three files, and no footer or no gap before it |
| ITrx.OneFileShows | asustrx/asustrx.c:186-188 | one file and no footer: an offset word of the image is what memory held |
| IMtd.MtdWrite | rc/mtd.c:205-324 | which check fails first decides the result and leaves the device as it was; otherwise the device holds the payload to its end, or up to a block that cannot be erased or does not take all its bytes, then set bits to the end of the block, then what was there |
| IMtd.AcceptedExactly | rc/mtd.c:227-290 | byte by byte, which files pass all checks: size, the letters HDR0, length and checksum in little-endian order; and when the header is left out |
| IMtd.ChecksumInPieces | rc/mtd.c:262-274 | the checksum over header and pieces of the erase size is that of the file, for every erase size |
| IMtd.WriteBlocks | rc/mtd.c:291-308 | erase and write, block after block: the same, for any payload |
| IMtd.OneBlock | rc/mtd.c:303-304 | one block fails exactly when it cannot be erased or does not take all its bytes; what it has taken then follows the payload before it |
| IMtd.WriteErased | rc/mtd.c:303-304 | writing can only clear bits, which is enough after erasing |
| IFlash.BuiltAccepted | rc/mtd.c:227-280 | every image built is accepted, for every erase size that holds a header and every device it fits, and is written whole |
| IFlash.DamageRejected | rc/mtd.c:262-280 | an image changed within four bytes in a row behind the checksum is not written |
| IFlash.BuildAndFlash | rc/mtd.c:205-324 | from files to flash, on a device without bad blocks: whenever an image is built the device begins with it, otherwise the device is untouched |
| NChain.Chain.InsertEntry | netconf/netconf_linux.c:810-846 | after any calls the chain is drops, accepts, then default policies and others in the order they came |
| NChain.DropsFirst | netconf/netconf_linux.c:833-839 | the scan for the place of an accept stops exactly behind the drops |
| NChain.Next | netconf/netconf_linux.c:810-846 | where a new rule of each class belongs in such a chain |
| NChain.VerdictOf | netconf/netconf_linux.c:810-846 | a packet is dropped iff a drop matches it, otherwise accepted iff an accept does, otherwise the first default decides; other targets may let packets through |
| NChain.VerdictByName | netconf/netconf_linux.c:818-845 | in target names: a matching rule to DROP or logdrop drops the packet, else one to ACCEPT or logaccept accepts it, else exactly the other rules and default policies decide |
| NChain.OrderDoesNotMatter | netconf/netconf_linux.c:810-846 | the verdict does not depend on the order in which drops and accepts are added |
| NChain.DefaultDecides | netconf/netconf_linux.c:810-846 | with a default policy that decides every packet has a verdict |
| NSixRd.Network | rc/interface.c:312-326 | exactly the first n bits stay, for every n, across words |
| NSixRd.Map6rd | rc/interface.c:344-371 | for every prefix and field, exactly the 32 - k bits behind the first n become the low bits of the IPv4 address, across words; the word behind the address stays what it is; errors leave all alone |
| NSixRd.FirstWord | rc/interface.c:362-363 | mask and shift in the word where the field starts, bit by bit |
| NSixRd.SecondWord | rc/interface.c:364-368 | and in the word where it ends |
| NSixRd.LowBits | rc/interface.c:359-360 | shifting out k bits leaves the number modulo 2^(32-k) |
| NSixRd.Delegate | rc/network.c:1830-1841 | the tunnel prefix as a number: prefix, then the low IPv4 bits, then zeros (section 4 of RFC 5969) |
| JScan.RunSound | httpd/json.c:9-128 | on every input, in whatever mode the call starts, tokens are in range, in order and disjoint, and a token is open exactly inside a string, word or nested bracket below the outermost one |
| JScan.Scanner.Js0n | httpd/json.c:9-128 | from the mode the call before has left in the static pointer, the loop over jump tables with its 16-bit memory of the last output writes exactly these tokens, modulo 2^16, returns the depth or 1, and leaves the mode it ends in |
| JAccept.RejectsExactly | httpd/json.c:9-128 | a first call fails on a text exactly if it cannot be continued to a sequence of separators, brackets, strings without the byte 127, and words that white space, a comma or a closing bracket ends; on a whole such sequence the result is the number of opening less closing brackets |
| JScan.CapWrites | httpd/json.c:6-7 | the length computed from the truncated offset is right modulo 2^16 |
| JScan.NoneOpen | httpd/json.c:9-128 | at depth 0 every offset written has its length, in whatever mode the call started |
| JScan.Unwrapped | httpd/json.c:6-7 | below 2^16 bytes nothing is truncated |
| JScan.WrittenOnce | httpd/json.c:6-7 | and different tokens are written differently |
| JGrammar.JsonIsWellFormed | httpd/json.c:13-56 | every value of RFC 8259, as a grammar of its own with white space, commas, colons, numbers, escapes and UTF-8, is one of the texts the following is about |
| JText.ScanBody | httpd/json.c:34-56 | escapes and UTF-8 sequences inside a string end in the string again, unless the byte 127 is in it, which is an error |
| JText.ScanText | httpd/json.c:9-128 | on every well-formed JSON text, with any white space, the scanner succeeds, finds exactly the items of the outermost array or object and is ready for the next call, if and only if no string at any depth holds the byte 127 and the call was ready: it starts afresh, or in a word that white space or a comma ends before the text |
| JText.PlacesShow | httpd/json.c:6-7 | each place cuts out its item, a string without quotes |
| JText.Reports | httpd/json.c:9-128 | the same for what a caller sees below 2^16 bytes: result 0 and exactly the offsets and lengths of the items |
| JText.ReportsJson | httpd/json.c:9-128 | so a first call on a text of RFC 8259 whose value is an array or object is right if and only if no string holds the byte 127 |
| JText.ReportsItem | httpd/json.c:6-7 | and these cut out the items, one after the other |
| JText.FreshAnswer | httpd/json.c:57 | a call answers as the first one would on every input if and only if the mode is the first one |
| JText.LeftOver | httpd/json.c:57 | concrete calls, on an unfinished number and on a lone quote, after which `[1]` is reported wrongly |
| JText.SeriesRight | httpd/json.c:9-128 | the calls of a series of well-formed texts are right up to any one of them if and only if the first was ready and none of these texts holds the byte 127 in a string |
| JText.DelFails | httpd/json.c:36-37 | a concrete JSON text with the byte 127 in a string: the call fails, and the next one misreports `[1]` |
| LTransaction.ReadBack | bpalogin/transaction.c:323-341 | read_INT2 and read_INT4 undo htons and htonl into memory, at any place |
| LTransaction.WireOrder | bpalogin/transaction.c:67-83 | numbers are written with the high byte first |
| LTransaction.EndlessExactly | bpalogin/transaction.c:254-280 | the walk never ends if and only if it comes to a field of length 0 before the code it looks for |
| LTransaction.EndlessStays | bpalogin/transaction.c:254-280 | after the rounds that take it to that field, no number of rounds takes it further |
| LTransaction.NeverOutside | bpalogin/transaction.c:254-280 | with three bytes to spare behind the message, as after every packet received, it never leaves the buffer |
| LTransaction.FieldAt | bpalogin/transaction.c:51-65 | where each field is in a message, and that its code, length and value are read back there |
| LTransaction.LocateField | bpalogin/transaction.c:254-280 | on a message of fields the walk goes from boundary to boundary, ends, and stops at the first field with the code, or nowhere iff there is none |
| LTransaction.Transaction.Start | bpalogin/transaction.c:85-92 | an empty message with type and session |
| LTransaction.Transaction.AddField | bpalogin/transaction.c:39-65 | one more field, the others and the header unchanged |
| LTransaction.Transaction.AddFieldInt2 | bpalogin/transaction.c:67-74 | the same for a 16-bit value |
| LTransaction.Transaction.AddFieldInt4 | bpalogin/transaction.c:76-83 | and a 32-bit value |
| LTransaction.Transaction.Send | bpalogin/transaction.c:122-132 | the length goes into the header and disturbs no field |
| LTransaction.Transaction.LocateParm | bpalogin/transaction.c:254-280 | the loop on any buffer: found, absent, endless or outside, as the definition says |
| LTransaction.Transaction.ExtractInt2 | bpalogin/transaction.c:282-293 | on any buffer: the first two bytes from the value of the first field with the code on, failure, or a wild read; on a message of fields failure iff there is no such field |
| LTransaction.Transaction.ExtractInt4 | bpalogin/transaction.c:295-306 | likewise four bytes |
| LTransaction.Transaction.ExtractString | bpalogin/transaction.c:308-321 | likewise, what the length of the field tells to copy; on a message of fields the whole value |
| LTransaction.WildExactly | bpalogin/transaction.c:282-321 | on any received message numbers are wild if and only if the walk does not end, strings also if the length of the field found is below four or reaches outside the buffer |
| LTransaction.ShortFieldWild | bpalogin/transaction.c:308-321 | a concrete message whose field says it is two bytes long |
| LTransaction.RoundTrip | bpalogin/transaction.c:23-321 | build, send, receive, extract: for every list of fields that fits |
| LHeartbeat.PassQuick | bpalogin/transaction.c:209-218 | a quick datagram that passes is at most the fourth of its run |
| LHeartbeat.PassSlow | bpalogin/transaction.c:219-222 | a slow one starts a new run after a pause |
| LHeartbeat.PassLogin | bpalogin/protocol.c:290-292 | so does a login, because of the timeout before it |
| LHeartbeat.Session.Receive | bpalogin/transaction.c:180-251 | which datagrams pass, are discarded or are heartbeats, and the new limiter state; a restart request is never reported |
| LHeartbeat.Session.Answer | bpalogin/protocol.c:332-349 | each answer carries the next sequence number |
| LHeartbeat.Session.HandleHeartbeats | bpalogin/protocol.c:308-368 | over every run: any five consecutive datagrams that pass span at least minheartbeat seconds, and the answers since the last login count 1, 2, 3 without gap |
| LHeartbeat.FourMayPass | bpalogin/transaction.c:209-222 | five is tight: a concrete run in which four pass in one second |

## Left out

- KTree.Tree.EliminateDups: the nodes of a tree are values here and slots are paths into the tree; sharing of nodes between trees, freeing and the range of the `int` trans_count are not modelled.
- KExprEq.EliminateEqCommon: two trees of one type other than && and ||, on which the behaviour of expr_eliminate_eq is undefined, are left alone here. E_CHOICE and E_NONE do not occur.
- KFinalize.ShouldAdopt: where expr_eliminate_eq is undefined (KFinalize.Undefined), both sides are left alone.
- KCompare.TransCompareCalc: stated for trees of boolean and tristate symbols; comparing with y or n only, which is all that menu_finalize asks for; comparing with the built-in mod and the NULL result for other symbols are not modelled.
- KFinalize.Finalizer.Finalize: menu_set_type, the SYMBOL_CHOICEVAL flag and the property list of a choice (config/menu.c:131-142, 205-214) are not modelled; a menu entry has a dependency, a prompt, properties and pointers.
- KWalk.Walk: what conf_write prints for an entry, the WRITE and CHANGED flags, and file handling.
- KEvaluate.Evaluator.Query: equality with the definition is for configurations with a ranking, in which the prompts of a choice's members mention the choice and a hidden choice has no enabled default; without one, termination, the VALID discipline and "no boolean is mod" are what is proved. WRITE, CHANGED and sym_change_count are not modelled.
- KSetValue.PickThenGet: the value of a symbol on which modules depend, if it ranks above the choice, and the default of a member that gets hidden are those after the call; the user's change is a new configuration value, from which evaluation starts afresh, as sym_clear_all_valid makes it.
- KSetValue.PickWorks: conf_choice writes the value of a choice that cannot be changed back without clearing SYMBOL_NEW (config/conf.c:299); the dialogues of conf and mconf are not modelled.
- HContext.Context.Update: `ULONG` is 32 bits wide, as on the router; pieces are shorter than 2^32 - 63 bytes, since the loop condition `i + 63 < size` wraps beyond. The counters are numbers with the wrap-around written out.
- HMd5.CompressLoop: the unrolled variant inside lanauth/md5.c (without LTC_SMALL_CODE), burn_stack and the self test; the argument checks for NULL.
- HMd5.Transform: the table T is taken as the listed constants; that they are the sines of RFC 1321 is not proved.
- ICrc.TableStep: the table is defined as what eight steps make of each byte, not as its 256 literals.
- ITrx.Build: option parsing and file names; the contents of files and footer, and what malloc finds in the buffer, are given. What happens once the program writes outside its buffer is not modelled. Numbers are stored in little-endian order.
- IMtd.MtdWrite: opening the device, unlocking, allocation failures, and files that change while they are read; a device is a whole number of blocks.
- NChain.Chain.InsertEntry: matching a packet against one rule is abstract, a blank rule matches all, and which targets other than drops and accepts let a packet go on is given; libiptc, netconf_add_fw and deletion are left out.
- NSixRd.Map6rd: words are in host order, since htonl commutes with bit operations; sizes are not negative.
- JScan.Scanner.Js0n: the size of the output array, which the caller provides; more than 2^31 continuation bytes in a row, where the counter of a call that starts inside a character would overflow.
- JText.ScanText: a text whose outermost value is a string, number or word, where the scanner reports nothing; the texts covered are more than JSON, since it tells neither separators nor kinds of brackets apart.
- LTransaction.Transaction.LocateParm: a walk without end and one that looks outside the buffer are outcomes here.
- LTransaction.Transaction.ExtractString: the size of the array the value is copied to, and the NUL behind it; a wild read or copy is an outcome here.
- LHeartbeat.Session.HandleHeartbeats: login itself apart from its end, credentials and the contents of answers; the run is any finite sequence of events.
- User interface of the configuration program, parsing of configuration files, and conf_read.
- RIPEMD-160, whose rounds share the buffering loop proved for MD5.
- ipv6_host, whose word index does not fit its purpose when the prefix length is a multiple of 32.
- rc services, CGI and HTML output, wireless control, loaders and the kernel tree.
