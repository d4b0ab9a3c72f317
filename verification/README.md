# Tereix: verified models of the compiler's core algorithms

Tereix compiles a small language to C, with many threads and with caches between builds. This
project models the parts of it whose correctness is not evident from reading one function, and
proves what they promise. `dafny verify dfyconfig.toml` checks everything.

| part | files | what is proved about it |
|---|---|---|
| concurrent module loader | `Loader.dfy` | for any number of workers and any interleaving: the counter is exact, zero is stable, the table ends up as the import closure, runs end |
| thread pool | `ThreadPool.dfy` | pending is exact, tasks run once in order, waiting and destroying lose nothing |
| expression parser | `Expr.dfy`, `ExprCasts.dfy`, `ExprMachine.dfy` | the two-stack operator machine is a recursive precedence-climbing parser; every cast carries the type in its parentheses and binds as a prefix operator |
| expression printer | `ExprPrinter.dfy`, `CodeGen.dfy` | what the callbacks print for a tree in memory, and for exactly which trees, before exactly what, the parser reads it back as the tree |
| explicit-stack visitor | `Ast.dfy`, `Visitor.dfy` | the frame-stack loop is the recursive visitor, for every pass and every callback decision |
| scope resolution | `Scopes.dfy` | the stack-driven pass is a recursive environment-passing resolver, which gives uses of parameters, variables, `self` and outer names their meaning and reports repeated declarations |
| structural hash | `NodeHash.dfy`, `StructEqual.dfy` | the memoised post-order pass is a recursive Merkle hash, equal for structurally equal trees anywhere in memory, and FNV-1a of a text that tells kinds, labels and children |
| yield assignments | `YieldMeaning.dfy`, `YieldPass.dfy` | the in-place pass performs a transformation that preserves meaning, and exactly when it may be applied |
| type flattening | `Flatten.dfy`, `FlattenProgram.dfy` | the list surgery conserves every node and all but a few fields of it, leaves no nested declaration, orders and names as promised |
| cloning | `Clone.dfy`, `CloneHash.dfy` | the copy is isomorphic, all new, unshared; the copy of a tree is a structurally equal tree and hashes equally |
| invalidation | `Invalidation.dfy` | both propagations mark the least fixpoint, within their fixed worklists |
| hash table | `HashTable.dfy` | refines a finite map through insertions, removals and resizes, for any keys, with exactly the keys it takes for one another |
| cache formats | `Stream.dfy`, `DeclMeta.dfy`, `AstGather.dfy`, `AstCache.dfy`, `AstLayout.dfy` | the gathering pass reaches all there is; round trips of the byte formats, down to the bytes, and of the graph of nodes; the words it looks at are those of the structs |

## How the source is modelled

* Threads: one step is one critical section, one atomic operation or one call of foreign code;
  a schedule is any sequence of steps enabled when their turn comes. What the file system
  answers is a parameter (`Loader.World`).
* The AST: nodes in arena memory that point at each other. `Ast.Memory` maps addresses to
  nodes; a pointer is an address, 0 is NULL, and passes rewrite nodes and links of that memory
  in place. `Visitor.Shape` is the tree of addresses that a memory shows under a node.
* `ast_traverse` is a loop over a stack of frames with the callbacks as functions on the pass
  state. Every pass (scopes, hashes, yield assignments, flattening) is a method that runs this
  loop, and a theorem says what the run has done; so are the code generator on expressions and the
  gathering of nodes for the cache, whose callback starts nested traversals.
* Objects with fields that methods update are classes: the parser with its three stacks, the
  scope stack, declarations with their dirty flag, hash entries and the hash table.
* 32-bit values are `Ast.u32` or written out modulo 2^32; bytes are `Ast.byte`.

Five places where the code does not do what one would expect are stated as such.
`Expr.TwoOperators` says how assignments in a row are grouped. `ExprPrinter.RoundTrip` says which
printed expressions are read back: a product of two names in parentheses looks like a cast, and a
null literal comes back as a name. `ExprPrinter.ReadsUnlessCaptured` says before which tokens.
`HashTable.FoundExactlyWhen` says which keys the hash table takes for one, and
`YieldMeaning.LegalExactlyWhenTailsOk` for which tails the yield rewriting yields a program.

## Model

| member | source | states |
|---|---|---|
| Loader.StepInv | src/main.c:205-419 | every step of every thread keeps the whole invariant: exact counter, exclusive claims, soundness and completeness of the table, exact logs |
| Loader.CounterIsExact | src/main.c:457 | in every reachable state modules_in_flight is the number of waiting paths, plus one per worker that holds a path, plus one per import counted but not yet pushed |
| Loader.ZeroIsStable | src/main.c:472-475 | when the counter reads 0 no path waits or is held, and no later step changes worklist, counter, table or error flag |
| Loader.DoneStrandsNothing | src/data_structures/worklist/worklist.c:29-56 | once wl_done has been called, or a worker has left its loop, the worklist is empty and nobody holds a path |
| Loader.LoaderCorrect | src/main.c:205-419 | at counter 0 the table holds exactly the import closure, placeholders stay only on modules that fail to load, the error flag is up exactly when some path of the closure fails, and each loadable module was parsed exactly once |
| Loader.OutcomeIsScheduleFree | src/main.c:205-419 | two quiet loaders on one input agree on table and error flag whatever their thread counts and schedules |
| Loader.PopsAreExact | src/main.c:395-413 | at counter 0 the paths popped number 1 plus the resolvable use statements of the loaded modules |
| Loader.StepLowersPotential | src/main.c:205-419 | every step lowers a potential built from the worklist, the workers and the modules not yet claimed |
| Loader.RunsAreBounded | src/main.c:205-419 | no schedule is longer than the modules and use statements of the file system pay for |
| Loader.NeverStuck | src/main.c:472-477 | until every worker has left, some thread can step |
| Loader.EveryRunCanFinish | src/main.c:472-477 | every run of any threads extends to one in which all of them have left, with the outcome the input determines |
| ThreadPool.StepInv | src/data_structures/thread_pool/thread_pool.c:6-75 | every step keeps pending exact and every started task either finished or in one worker |
| ThreadPool.PendingAndOrder | src/data_structures/thread_pool/thread_pool.c:6-30 | pending is queued plus running tasks, and tasks are dequeued once each in submission order |
| ThreadPool.WaitMeansFinished | src/data_structures/thread_pool/thread_pool.c:77-83 | tp_wait can return only when every submitted task has returned, once |
| ThreadPool.DestroyRunsEverything | src/data_structures/thread_pool/thread_pool.c:46-59 | after tp_destroy has joined all workers every task ever submitted has run exactly once |
| ExprMachine.Parser.ParseExpression | src/parser.c:1105-1489 | on top of any stacks ending in a group or nothing, the machine returns the tree and remaining tokens of the reference parser, restores everything below, and reports an error exactly where the reference parser fails; every cast in the tree carries a type that stands in the input between parentheses |
| ExprMachine.Parser.ParseStep | src/parser.c:1105-1489 | one step keeps what the reference parser would return from the machine's state, and reports an error only where that one fails |
| ExprMachine.Parser.TakeOperator | src/parser.c:1366-1419 | the operator branch keeps that meaning for prefix, postfix and infix operators |
| ExprMachine.Parser.Outbid | src/parser.c:1395-1414 | the loop applies exactly the waiting operators that the new one does not outbid, and the meaning of the state stays |
| ExprMachine.Parser.Reduce | src/parser.c:1121-1131 | at the end of an expression every waiting operator is applied down to the group or base, and the meaning of the state stays |
| ExprMachine.Parser.ApplyOp | src/parser.c:497-589 | the whole new state of both stacks after apply_op, with its two error cases |
| ExprMachine.Parser.CloseGroup | src/parser.c:1470-1489 | a closing parenthesis ends the group for the reference parser too; anything else is an error for both |
| ExprMachine.ResumeInfix | src/parser.c:1395-1417 | an infix operator that outbids what waits may be pushed: `=` alone is right-associative |
| ExprMachine.ResumePostfix | src/parser.c:1370-1417 | a postfix operator may be pushed and applied later |
| ExprMachine.ResumeApply | src/parser.c:497-589 | applying an operator that the next token does not outbid keeps the meaning of the stacks |
| ExprMachine.AwaitPush | src/parser.c:1172-1203 | pushing a group, a cast or a prefix operator keeps the meaning of the stacks |
| ExprMachine.Parser.TakeParenthesis | src/parser.c:1133-1203 | behind an opening parenthesis the machine pushes a cast exactly where the reference parser reads a type, a group otherwise, and the meaning of the state stays |
| ExprCasts.CastIsItsText | src/parser.c:1133-1203 | where the parser returns a cast, its type is the text behind the opening parenthesis up to the closing one: qualifiers and marks, then a builtin type, `self`, a name, or a module and a name |
| ExprCasts.ParsedCasts | src/parser.c:497-589 | the same holds of every cast anywhere in a parsed tree |
| ExprCasts.CastExactly | src/parser.c:592-659 | the text of a type in parentheses is read as a cast to it, with what follows as the operand of a prefix operator, if its first token, marks apart, is `static`, `mut`, `threadlocal`, `extern`, a builtin type or `self` in a type; otherwise no cast is read |
| ExprCasts.CastBindsTightly | src/parser.c:1172-1203 | before any infix operator a cast has taken the operand next to it only |
| ExprCasts.PostfixBindsTighter | src/parser.c:1366-1419 | a postfix step behind the operand of a cast is inside the cast |
| Expr.LevelsAreC | src/parser.c:55-117 | an operator has precedence 11 - i if and only if it is in the i-th of C's levels of binary operators, so nothing outside them binds above 0 |
| Expr.TableIsCode | src/parser.c:55-117 | the precedence of each operator the lexer delivers is what get_precedence computes from its text |
| Expr.TwoOperators | src/parser.c:1395-1414 | of two operators in a row the second takes the middle operand exactly when its precedence is higher, or equal and it is `=`; `+=` groups to the left |
| ExprPrinter.PrintThenParse | src/cgen.c:405-421 | the printed tokens of a readable tree, followed by anything that does not capture them, are read as that tree under any operator of precedence at most 12 to the left |
| ExprPrinter.RoundTrip | src/cgen.c:405-421 | for every tree that parsing can build: its printed text before a closing token parses back to it if and only if nothing in it looks like a type behind its parenthesis and it has no null literal; null literals come back as the name they are printed as; whatever looks like a type makes an error or another tree |
| ExprPrinter.ReadsUnlessCaptured | src/parser.c:1395-1419 | printed text in front of more tokens is read as the tree if and only if it does not end in a prefix operation that a postfix step follows, or what follows is an error anyway |
| ExprPrinter.ProductOfNamesIsNoCast | src/parser.c:592-659 | the text printed for the product of two names is rejected: the parser takes the first name for a type |
| ExprPrinter.GroupIsType | src/parser.c:592-659 | the printed operand of a unary operation looks like a type exactly when it is a type keyword or `self` inside a type |
| ExprPrinter.BinaryIsType | src/parser.c:592-659 | a printed binary operation looks like a type exactly when its left operand is one, or `*` or `&` stands between two names |
| ExprPrinter.PrintedOperand | src/cgen.c:405-421 | in the middle of any parse, with any stacks, reading the text of a readable tree amounts to finding the tree on node_stack |
| ExprPrinter.PrefixThenStepIsCaptured | src/parser.c:1395-1419 | an input that is captured: a postfix step right behind a printed prefix operation is read into its operand |
| ExprPrinter.ParsedIsCanonical | src/parser.c:497-589 | every tree that parsing yields qualifies for the round trip |
| ExprPrinter.Reparse | src/cgen.c:405-421 | parse, print, parse again gives the first tree if and only if that tree is readable and has no null literal |
| CodeGen.VisitPrints | src/cgen.c:233-421 | the callbacks, wherever the expression stands, append the operator of the parent if it is a right operand, the printed tree, and a semicolon if it is a statement, and restore parent_stack |
| CodeGen.PrintExpression | src/cgen.c:929-953 | the traversal of an expression in memory leaves the printed tree |
| CodeGen.PrintAndParse | src/cgen.c:929-953 | printing an expression from memory and parsing the text on top of any stacks pushes the same tree, and touches nothing below, if and only if the tree is readable and has no null literal |
| CodeGen.PrintedByKind | src/cgen.c:405-421 | the text by the kind of the root: address-of as `&`, dereference as `*`, other unary and binary operations with the operator of their token, before, behind or between the operands; literals and names as one token, null as the name NULL |
| CodeGen.StatementEnds | src/cgen.c:915-925 | exactly the binary and unary operations, names, numbers and strings that stand in a block, a program or an extern block end in a semicolon |
| Visitor.Traverse | src/data_structures/ast_visitor/ast_visitor.c:14-272 | the loop over the frame stack ends, with the state and verdict of the recursive visitor, for every pass and every continue, skip and abort decision |
| Visitor.PushChildren | src/data_structures/ast_visitor/ast_visitor.c:162-262 | the frames pushed by the switch over the kinds, unwound, are the items of the node in visiting order with their interleave steps |
| Visitor.ItemsInOrder | src/data_structures/ast_visitor/ast_visitor.c:162-262 | what happens between entering and leaving a node, child by child and step by step, for every kind: of a function its parameters and then its block, of a for loop init, check, inc and action, and so on |
| Visitor.PushListInterleaved | src/data_structures/ast_visitor/ast_visitor.c:120-160 | the frames pushed for a list are its nodes in list order with numbered gaps between them |
| Visitor.Collect | src/data_structures/ast_visitor/ast_visitor.c:120-152 | the array holds the nodes of the sibling list in order |
| Visitor.OpenedUnwinds | src/data_structures/ast_visitor/ast_visitor.c:66-262 | replacing an entered node by its exit frame and its children keeps what the stack stands for, and leaves less work |
| Scopes.VisitResolves | src/sem.c:575-677 | on any tree and any scopes the callbacks leave the bindings, errors and declared names of the recursive resolver, and the outer scopes as they were |
| Scopes.ResolveScopes | src/sem.c:679-733 | resolve_scopes binds and reports exactly as the recursive resolver and restores the scope stack; uses of parameters, variables and `self` that nothing hides are bound to them; names that nothing in the tree declares mean the import, else the symbol of the module, else what is around, and are reported exactly when all lack them; a declaration is reported exactly when its scope has the name already |
| Scopes.LookupIsVisible | src/sem.c:521-528 | searching the scopes from the innermost outwards is lookup in the environment where inner names hide outer ones |
| Scopes.EnterMeets | src/sem.c:575-660 | entering a node declares, looks up and opens scopes as the reference resolver does when it meets it |
| Scopes.ParameterIsBound | src/sem.c:575-660 | an identifier in the block of a function with the name of a parameter that nothing in the block hides is bound to that parameter, and no error is reported, wherever the function stands |
| Scopes.VariableIsBound | src/sem.c:575-660 | in a block an identifier behind the first declaration of a variable of its name is bound to that declaration |
| Scopes.SelfIsBound | src/sem.c:575-660 | `self` inside a type is bound to the type |
| Scopes.UseIsResolved | src/sem.c:521-528 | an identifier that nothing in the tree around it hides is bound to what its name means outside the tree, and reported exactly when it means nothing |
| Scopes.RepeatIsReported | src/sem.c:530-539 | a function, parameter or variable is reported exactly when an earlier child has declared the name in the same scope, or it is named `self` inside a type |
| Scopes.HoldsDeclared | src/sem.c:530-677 | a scope comes to hold the names declared in it, at whatever depth below nodes without a scope, and no others |
| Scopes.FirstStays | src/sem.c:530-539 | the first meaning of a name in a scope stays |
| Scopes.FreeNamesMeanOuter | src/sem.c:679-733 | names that nothing in the tree declares mean imports before module symbols before what is around |
| Scopes.ScopeStack.ScopeLookup | src/sem.c:521-528 | the symbol found is that of the innermost scope with the name |
| Scopes.ScopeStack.ScopeDeclare | src/sem.c:530-539 | a duplicate is refused and changes nothing; the whole new stack otherwise |
| NodeHash.HashString | src/data_structures/hashmap/hashutils.c:3-11 | the loop computes FNV-1a as section 2 of draft-eastlake-fnv defines it, on 32 bits |
| NodeHash.KnownHashes | src/data_structures/hashmap/hashutils.c:3-11 | the hashes of the empty string and of `a` are those published for FNV-1a |
| NodeHash.VisitHashes | src/ast_serde.c:463-647 | on every tree whose non-zero stored hashes are right the pass leaves its structural hash at its root and changes nothing but hashes of that tree |
| NodeHash.ComputeNodeHash | src/ast_serde.c:649-667 | the hash returned is the recursive structural hash of the tree, 0 for NULL; a tree that is hashed already is not touched |
| NodeHash.MixIsStruct | src/ast_serde.c:472-647 | mixing a node whose children carry their structural hashes gives its own |
| NodeHash.RecipeIsVisited | src/ast_serde.c:472-647 | every child whose hash is mixed in has been visited before |
| NodeHash.MixedChildren | src/ast_serde.c:472-647 | the children mixed in are all that are visited, in visiting order; of a for loop the first nodes of its two lists, its check and its action |
| NodeHash.HashIsOfText | src/data_structures/hashmap/hashutils.c:3-21 | the structural hash is FNV-1a of one text: the kind, the words of the node, the hashes of its children, four bytes each, low byte first |
| NodeHash.WordsTell | src/ast_serde.c:443-647 | nodes of one kind that mix in the same words agree in every token, type and flag of the kind, up to the hashes of texts |
| NodeHash.SameTree | src/ast_serde.c:463-470 | stored hashes have no influence on the structural hash |
| NodeHash.KindsDiffer | src/ast_serde.c:472-647 | different kinds begin with different words |
| StructEqual.AlikeHash | src/ast_serde.c:472-647 | any two trees, in any two memories, that agree node by node in kind, tokens, flags, types and links have the same structural hash |
| StructEqual.RecipesAlike | src/ast_serde.c:472-647 | structurally equal nodes mix in the same words and corresponding children, in the same order |
| StructEqual.EveryChildIsMixed | src/ast_serde.c:472-647 | every child that belongs to the tree is mixed in at its place, a list as a whole but for the two lists of a for loop |
| YieldMeaning.InjectKeepsMeaning | src/cgen.c:91-170 | for every tree with qualifying tails, every state and all meanings of the parts not looked into, which may change any variable but the fresh one: the rewritten tree has the same effects and way of ending, and the fresh variable holds the value |
| YieldMeaning.LegalExactlyWhenTailsOk | src/cgen.c:91-170 | the rewriting yields a legal tree if and only if no loop or declaration of a function or type stands in tail position |
| YieldMeaning.TailsThatQualify | src/cgen.c:91-134 | the tails that qualify are, kind by kind, the expressions, break, continue, return, defer and variable declarations, and blocks, ifs, switches and cases with such tails |
| YieldMeaning.LoopTailIsStuck | src/cgen.c:130-133 | a block ending in an if whose second branch ends in a loop is a counterexample that has a type: it ends normally, its rewritten form does not |
| YieldMeaning.FreshExec | src/cgen.c:91-170 | a tree that does not mention the variable neither reads nor changes it |
| YieldPass.VisitInjects | src/cgen.c:91-178 | the callbacks on node memory leave at a node's address the transformed tree, in its place in its list, and touch nothing else |
| YieldPass.VisitCells | src/cgen.c:91-178 | whatever the visit does, each cell is as it was or, at a tail of no excluded kind, an assignment to the variable of a copy of what stood there |
| YieldPass.TailsAreLast | src/cgen.c:96-115 | the children the pass follows are exactly those in tail position |
| YieldPass.OverwriteAssigns | src/cgen.c:136-167 | overwriting a node in place makes it the assignment of a copy of the old tree |
| YieldPass.InjectYields | src/cgen.c:91-178 | the transformation yields the value of the original tree in the variable, from any two states that agree but for it |
| YieldPass.InjectYieldAssignments | src/cgen.c:180-203 | the memory afterwards shows at the node the transformed tree, and running that does what running the old tree did and leaves its value in the variable; of the old cells exactly the tails that are no break, continue, return, defer, declaration of a variable or statement with tails become assignments of a copy, and every other cell is as before |
| FlattenProgram.FlattenSues | src/cgen.c:1095-1117 | the program is again a tree of exactly the old nodes, each once; no type in it holds a method or a type; every type stands before the declaration holding the type it was directly inside; every method under types, in blocks too, is named by the names of the types around it, outermost first, each followed by `_`, and its own name; no other token changes, and of each node only its sibling, the first link of types and of the program, and names of functions |
| Flatten.LeaveLoop | src/cgen.c:1033-1093 | the loop of flatten_exit over the contents of a type computes the pass function used in the proofs |
| Flatten.SweepSplices | src/cgen.c:1040-1090 | over any contents the loop leaves the kept members in order, the methods behind the type, the nested types at the end of the hoisted list, and touches no other node |
| Flatten.StepMethod | src/cgen.c:1046-1067 | moving one method behind its type keeps all four lists of the loop intact |
| Flatten.StepHoist | src/cgen.c:1068-1083 | moving one nested type to the hoisted list keeps all four lists of the loop intact |
| Flatten.VisitFlattens | src/cgen.c:1033-1093 | visiting a node takes every declaration under it to its specified place and leaves everything outside alone |
| Flatten.FlatConserves | src/cgen.c:1033-1093 | the specified places hold each address as often as the tree did |
| FlattenProgram.TypesInOrder | src/cgen.c:1068-1083 | in the program each formerly nested type precedes the declaration that holds the type it was directly inside, wherever that was |
| FlattenProgram.NestedBefore | src/cgen.c:1068-1083 | where a type is hoisted, the type that it was directly inside has not come yet, neither by itself nor within another |
| FlattenProgram.MethodNames | src/cgen.c:1046-1062 | a method put behind a type carries the names of its enclosing types, each followed by `_`, and its own |
| FlattenProgram.SpelledShape | src/cgen.c:1057-1062 | such a name begins with the outermost type and `_`, ends in `_` and the own name, and is as long as all the names together and one more for each type |
| FlattenProgram.MethodFound | src/cgen.c:1046-1062 | every method under types is put behind the outermost of them, with that name |
| FlattenProgram.ProgramNamed | src/cgen.c:1046-1062 | after the whole visit the node of each method under types carries that name, and no other token has changed |
| FlattenProgram.VisitKept | src/cgen.c:1033-1093 | whatever a visit does, it leaves every cell as it was but for siblings, first links of types and names of functions |
| Clone.CloneAst | src/ast.c:488-677 | the copy has the same paths and, links apart, the same node at each; every node of it is new and reached by one path; the source is unchanged; the loop ends on every finite structure |
| Clone.CloneChild | src/ast.c:457-486 | copying one child extends the finished part of the copy by one link |
| Clone.CloneLinks | src/ast.c:505-670 | one turn of the loop completes one node and owes less than before |
| Clone.ClonedPath | src/ast.c:488-677 | following any path in source and copy leads to matching nodes, and a node of the copy knows its path |
| CloneHash.CloneHashesEqually | src/ast.c:488-677 | what clone_ast makes of a tree is a tree, structurally equal to it, of the same structural hash, and its copied hashes are right if those of the source were |
| CloneHash.HashClone | src/ast_serde.c:649-667 | compute_node_hash returns the same value on a tree and on its clone |
| CloneHash.NodeIsAlike | src/ast.c:505-670 | a node and its copy agree in kind, tokens, flags, type and links |
| CloneHash.TwinBack | src/ast.c:488-677 | a node of the clone is the copy of one source node only |
| CloneHash.ItemsAreTwins | src/data_structures/ast_visitor/ast_visitor.c:80-262 | what is visited under a node and under its copy corresponds item by item |
| Invalidation.PropagateDeclarationInvalidation | src/ast_serde.c:915-989 | the dirty declarations are exactly those that are new, have another hash than the first of their name in the previous build, or reach such a one through names called or types used |
| Invalidation.ChangedIsSeen | src/ast_serde.c:915-936 | a declaration is dirty at first exactly when the previous build has none of its name, or its first one has another hash |
| Invalidation.PropagateByRescan | src/ast_serde.c:938-986 | the rescan marks exactly what reaches the seed, within a worklist of one slot per declaration |
| Invalidation.BuildReverse | src/main.c:117-141 | the reverse table lists under each name exactly the declarations that mention it |
| Invalidation.PropagateGlobalInvalidation | src/main.c:111-182 | the reverse-graph form marks the same set as the rescan, within its worklist, for any order of declarations |
| Invalidation.TaintedIsLeast | src/ast_serde.c:950-986 | reachability through dependencies is the least set with the seed that is closed under being depended on |
| Invalidation.MarkStep | src/ast_serde.c:979-985 | marking one more declaration keeps the invariant shared by both propagations, and its slot exists |
| Invalidation.OrderDoesNotMatter | src/main.c:118-141 | renumbering the declarations, as another bucket order does, moves the dirty set along |
| HashTable.MatchesUpToNul | src/data_structures/hashmap/hashmap.c:47-90 | keys of one length compare equal exactly when they agree up to the first NUL |
| HashTable.MatchIsEquality | src/data_structures/hashmap/hashmap.c:47-90 | for keys without a NUL the comparison is equality |
| HashTable.MatchIsSameText | src/data_structures/hashmap/hashmap.c:47-90 | two keys match exactly when they have one length and one text up to the first NUL |
| HashTable.FoundExactlyWhen | src/data_structures/hashmap/hashmap.c:47-90 | of two keys the table finds the one under the other exactly when they have one length, one text up to the first NUL, and FNV-1a hashes that agree modulo the capacity |
| HashTable.NulConflates | src/data_structures/hashmap/hashmap.c:47-90 | whatever the capacity, there are two different keys that the table takes for one |
| HashTable.HashMap.Set | src/data_structures/hashmap/hashmap.c:47-74 | the contents are the old map with the value set under the key that the table takes the given one for, which is the key itself when it has no NUL; the table stays valid: exact count, every entry in the bucket of its hash, keys unique; a NULL key changes nothing |
| HashTable.HashMap.Get | src/data_structures/hashmap/hashmap.c:76-90 | the value kept under the key that the table takes the given one for, or none; for a key without a NUL, the value of the key in the map |
| HashTable.HashMap.Remove | src/data_structures/hashmap/hashmap.c:92-114 | the contents are the old map without the key that the table takes the given one for, and the table stays valid |
| HashTable.HashMap.Resize | src/data_structures/hashmap/hashmap.c:11-38 | twice the buckets, the same entries and contents, every entry in its new bucket |
| HashTable.MoveAll | src/data_structures/hashmap/hashmap.c:17-32 | relinking every chain into new buckets moves every entry exactly once |
| HashTable.Search | src/data_structures/hashmap/hashmap.c:76-90 | the walk finds the one entry that the table takes for the key, with its predecessor, and none exactly when no key of the map is taken for it |
| HashTable.Unlink | src/data_structures/hashmap/hashmap.c:100-110 | taking an entry out of its chain removes its key and nothing else |
| Stream.ReadManyBack | src/ast_serde.c:1044-1144 | reading as many records as were written gives back each of them, wherever they lie in the file |
| Stream.WordBack | src/ast_serde.c:991-1038 | four bytes written low byte first are read back as the word |
| DeclMeta.WriteDeclMeta | src/ast_serde.c:991-1038 | the buffer written is the file format of the list |
| DeclMeta.ReadDeclMeta | src/ast_serde.c:1044-1144 | the loops return what the format reader returns, and the empty list for any unreadable file |
| DeclMeta.RoundTrip | src/ast_serde.c:991-1144 | a written file, whatever follows it, reads back as the same list in the same order with both dependency lists of each item reversed |
| DeclMeta.TwiceRestores | src/ast_serde.c:991-1144 | writing and reading twice restores the list if and only if its positions survive |
| DeclMeta.PositionSurvives | src/ast_serde.c:1007-1014 | a position survives if and only if it is absent or below 2^32 - 1 from the start of the source |
| DeclMeta.TruncatedIsRejected | src/ast_serde.c:1044-1144 | every proper prefix of a written file is rejected as a whole |
| AstGather.Gather | src/ast_serde.c:65-130 | the traversal with its nested traversals for dimension sizes ends and gathers exactly the nodes reached from the root by child, list and dimension links, each once, indexed by its place in the queue, the root at 0 |
| AstGather.VisitGathers | src/ast_serde.c:65-96 | a visit in any state adds only what is reached from its node, and with each node it adds all that is visited from that |
| AstCache.WordReturns | src/ast_serde.c:160-197 | after tagging and resolving, nodes, source pointers and keywords are themselves in the reader's memory, small words unchanged, other pointers NULL; no tag is mistaken for another or for a small word |
| AstCache.LinksKeepTheirGraph | src/ast_serde.c:366-440 | two links are equal for the reader exactly when they are for the writer, and NULL exactly when NULL |
| AstCache.TagPointers | src/ast_serde.c:160-197 | the in-place scan tags every word of the copied node |
| AstCache.WriteAst | src/ast_serde.c:142-223 | the buffer written is the file format of the tagged nodes in gather order |
| AstCache.CacheWriteAst | src/ast_serde.c:104-223 | gathering from the root and writing leaves the file format of exactly the reached nodes; nothing is written for NULL |
| AstCache.ReadAst | src/ast_serde.c:349-440 | the loops return what the format reader returns, nothing for an unreadable file |
| AstCache.CacheRoundTrip | src/ast_serde.c:104-440 | every node comes back at its index, each of its words and dimensions meaning to the reader what it meant to the writer |
| AstCache.WalksAgree | src/ast_serde.c:276-440 | from any gathered node, any path of child, sibling and dimension links leads the reader to the index of the node it leads to in the writer's memory, or nowhere for both |
| AstCache.CacheKeepsTheGraph | src/ast_serde.c:104-440 | the bytes written, read in another process, show from node 0 on the graph below the root of the writer's memory: each path of links leads to the restored copy of its node, and two paths meet exactly when they met |
| AstCache.ChildrenAreGathered | src/ast_serde.c:65-96 | every child and every dimension size of a reached node is reached, so none of these links is lost |
| AstCache.SiblingsAreGathered | src/ast_serde.c:65-96 | every node of a child list of a reached node is reached |
| AstCache.NothingIsCut | src/ast_serde.c:104-223 | when siblings stand only in lists and a sizeof of a type holds no expression, no link of the writer's memory is lost |
| AstLayout.KidWordsAreLinks | src/private/ast_types.h:48-204 | the words of a node that are taken for children are the node pointers in the struct of its kind, laid out member by member |
| AstLayout.KidWordsAreAll | src/ast.c:505-670 | they are as many as cloning follows, and distinct |
| AstLayout.HeaderLayout | src/private/ast_types.h:48-62 | the sibling and the count of dimensions stand where the cache looks, and the union begins behind the header |
| AstLayout.DeclaredTypeWord | src/private/ast_types.h:60-204 | the count of dimensions of a declared type stands where the cache looks, for every kind that declares one and no other |
| AstLayout.NodeSize | src/private/ast_types.h:48-204 | the records of the cache are as long as a node, which has room for the struct of every kind and no more than a function needs |
| AstLayout.ChildrenAreSeen | src/data_structures/ast_visitor/ast_visitor.c:162-262 | of a node laid out from a kind and its children, a traversal sees that kind and those children |
| AstLayout.EveryPointerIsGathered | src/ast_serde.c:65-96 | every node pointer in the struct of a reached node leads to a reached node, but for the expression of a sizeof of a type |
| AstLayout.PointersComeBack | src/ast_serde.c:104-440 | what is read back for a reached node is laid out as the same kind, with the copies of all its children |

## Left out

- Loader.LoaderCorrect: a path resolves, loads and parses to the same thing whenever it is asked for; diagnostics for imports that do not resolve are not recorded, as such imports are never pushed.
- Loader.NeverStuck: says that some thread can step, not that the condition variables wake the right one; sleeping threads are threads whose step is not enabled.
- ThreadPool.WaitMeansFinished: the wakeup of tp_wait is not modelled, only what holds when it sees pending at 0.
- ExprMachine.Parser.ParseExpression: calls, indexing, member access, array literals and error recovery are outside; the machine stops there. Inside a cast the dimensions of an array type are outside too.
- ExprPrinter.RoundTrip: casts are not printed; text is a sequence of tokens, so the spacing that keeps the lexer from joining two of them is not modelled.
- CodeGen.VisitPrints: binary and unary operations and leaves only; the bound of parent_stack and the rest of the generated C are not modelled.
- Visitor.Traverse: the growth of the frame array by realloc and its failure are not modelled; sibling lists must end, so the guard of the list walk against cycles is not modelled.
- Scopes.ResolveScopes: symbols are values with kind and declaration; the diagnostics themselves are represented by the nodes they point at.
- NodeHash.ComputeNodeHash: a structural hash of 0 is stored as it is and computed again when met again, as in the source; collisions are not excluded.
- YieldMeaning.InjectKeepsMeaning: for loops, defers, returns and foreign calls are opaque steps, and operators and calls opaque functions of the tree, the operand values and the state, that may do anything except look at the fresh variable; integers stand for all values. A default case is entered when nothing matches, as intended.
- YieldPass.InjectYieldAssignments: requires the tail to be at most 2048 deep, the size of parent_stack, beyond which the source gives up; types of the new nodes are not modelled.
- FlattenProgram.FlattenSues: what flatten_enter rewrites inside the nodes it meets (`self`, fields of the type's own type, members of imported modules), the is_nested_sue flag and the bound of sue_stack are not modelled; types must stand only in lists, as the parser puts them.
- Clone.CloneAst: requires that every path from the root ends, since the source does not end otherwise; copies of data types are shallow.
- Invalidation.PropagateGlobalInvalidation: the modules' declarations are given as one list in bucket order, and the reverse hash table as a finite map.
- HashTable.HashMap.Set: the capacity must be positive; allocation failure is not modelled.
- DeclMeta.RoundTrip: requires fewer than 2^32 declarations, dependencies and bytes of a name, the width of the counts in the compiler and in the file.
- AstCache.CacheKeepsTheGraph: assumes, as the address space of the reading process guarantees, that source text, keywords and small words do not lie where the nodes do.
- AstCache.CacheRoundTrip: large words that are not known pointers come back as NULL, and the words that point at size arrays are written as NULL and set again by the reader. The special treatment of parameters named `self` on reading is left out.
- PtrMap (src/data_structures/ptrmap/ptrmap.c) is not part of this model: the node index of the AST cache is a finite map.
- AstGather.Gather: requires that no reached node lies below itself, since the source does not end otherwise; what is traversed again without being queued again is traversed in the model too, but the order of the queue is stated only for the root.
- AstCache.CacheWriteAst: the content hash and the magic number in front of the buffer, and its compression, are not modelled.
- Arena memory is a map from addresses to nodes and not a heap of Dafny objects, so overlapping or freed allocations cannot be expressed.
- lower_defers (src/cgen.c:1187-1371) keeps no simple meaning and is not modelled.
- The formatter (src/fmt.c), the statement and type parser, the type checker, the C text of statements, the language server, the command line, files, compression and processes are not modelled.
