# BreadLang: a verified model of the compiler's scopes, expressions and runtime memory

BreadLang is a small typed language: a parser, a semantic pass and a code generator on LLVM, and a runtime with
reference counts, a block pool, a collector and dictionaries. This project models the parts of it in which
several functions have to agree, and proves that they do.

- **Scopes.** `Syntax` has the statements, reduced to what touches scopes. `Analyser` is the semantic pass over its
  depth-tagged variable list, `Codegen` the emitted code (a flat instruction list with, at each address, what the
  compiler knows there), `Machine` the interpreter of that code with the scope stack of the runtime. `Flow` and
  `Depth` prove scope-depth neutrality and the return guarantee for all programs, `Names`, `NameFlow`, `Lookups`
  and `Scoping` that static and dynamic scoping agree, `Spelling` what the hash-named string globals add to that.
  `Traces` says what a program does on its text alone; `Control`, `Simulation` and `Behaviour` prove that the emitted
  code does just that. `Acceptance` says on the text what the semantic pass accepts, `ReturnCheck` what the return
  check refuses, `ScopeLaws` what the operations of the scope stack mean.
  `SemanticPass`, `Building` and `ScopeStack` are the same three components as they are written: a pass that
  changes its list, a builder that saves and restores its loop state, a fixed table of scopes.
- **Expressions.** `Values` has the runtime's operators on boxed values, `OperatorLaws` the laws that they obey,
  `Unboxing` the unboxed fast path with its instruction emitter, `Typing` type inference. `Parser` is the grammar and
  the debug printer of syntax trees; `Reading` and `RoundTrip` prove when they are inverse. `Source` is a second
  printer, of the language as it is written; `SourceReading` and `SourceText` prove that the parser reads its text
  back. `Reader` is the cursor-moving parser. `Superclass` infers the class of an array literal.
- **Memory.** `Store` has objects, counts and the cascading release, `Ownership` the container operations,
  `Marking` and `Collector` the collector, `Heap` the manager that does all this in place, `Containers` the
  arrays and structs with their growing and shifting buffers. `Pool`, `Memory` and `Allocator` are the block pool,
  the allocation functions and their statistics.
- **Dictionaries.** `HashTable` and `HashDict` are the open-addressing table, `LinearDict` the scanned one, which
  refines the list of pairs of `OrderedMap`. `OwnedDict` proves the same of the dictionaries of the ownership model, and
  `ElementTypes` what declared element types guarantee.

Where the code changes state step by step there is a class or a method with loops, proved equal to a function; the
properties are proved of the function. `EveryRun...` theorems are inductions over arbitrary operation sequences.

Some promises do not hold of the code as it is. The model keeps the code, and a theorem says exactly when the
promise holds:

- Names are emitted through globals named by a 32-bit hash. Scoping agrees in all runs of the emitted program exactly
  if no instruction that the program can come to has its name taken for another declaration of its scope or hidden by
  another variable (`Spelling.AgreementIff`); that is so without collisions (`CollisionFreeAgreement`), and `declinate`
  and `macallums` collide and break it (`RealCollision`).
- A tombstone stops the hash probe. With removals, a key is found exactly if no tombstone lies before it and a lookup
  never gives a wrong value, over all runs that set no hidden key (`HashTable.EveryRunHolds`, `LookupIff`); setting a
  key keeps the table right exactly if it is not hidden at that moment (`SetHoldsIff`), otherwise it is stored twice
  (`RemoveThenSetDuplicates`). Resizing repairs the table (`RebuiltRefines`).
- The 8192-entry mark stack drops children: marking is exact, and so is a whole collection, exactly if every dropped
  child ends up marked all the same (`Marking.MarkingIsExactIff`, `Collector.CollectIsExactIff`); for an array of n
  strings that means n up to 8192 (`WideArrayMarked`). Collection stays safe whatever is dropped
  (`Collector.ReachableIsNeverFreed`).
- Every object with a positive count is a root, so with correct counts the collector frees nothing and a garbage cycle
  stays (`Collector.CollectorKeepsCycles`, `GarbageCycleStays`). An object leaks exactly if some set of live objects
  without handles has all its owners inside itself (`LeaksIff`); without cycles nothing leaks (`AcyclicNeverLeaks`).
- The printer writes `<= >= == != && ||` as internal codes, `self`, `super` and struct literals as `<expr>`, and a
  number swallows a dot after it: a tree parses back exactly when it has none of these (`RoundTrip.ParseInvertsDump`).
  An empty dictionary comes back as an empty array (`EmptyDictIsLost`).
- Inference lets through comparisons of different types and `%` on doubles; those never evaluate, all others do
  (`Typing.InferenceIsSound`).
- Unary minus inside unboxed code is right exactly if its operand is an integer, a boolean, a boxed value that is no
  number, or a double that negation and subtraction from zero treat alike (`Unboxing.MinusIff`,
  `BoxedMinusAgreesIff`); of the doubles that shuts out 0.0 and not -0.0 (`NegatedZeroDiffers`).
- Returning a block that is not taken breaks the pool's counts, and exactly that does (`Pool.FreeKeepsInvariantIff`);
  reallocating an untracked address keeps the byte accounting only for size 0 (`Memory.UntrackedReallocAccountedIff`).
- The return check is exact for bodies without calls (`ReturnCheck.CheckIsExact`); a refused body with calls may still
  never reach its end, because a call need not return.
- An array or dictionary whose first element is nil stays undeclared and takes anything (`ElementTypes.NilDeclaresNothing`);
  otherwise everything inside has the declared type (`EveryRunIsTyped`).
- A saturated reference count is the one case in which a clone is not counted (`Ownership.RetainCountsUnlessSaturated`).

## Model

| member | source | states |
|---|---|---|
| Scoping.StaticMeetsDynamic | src/codegen/codegen_semantic.c:66-123 | In every run of an accepted top-level program there is no unknown name, duplicate, constant assignment, overflow or underflow, and for each lookup the semantic pass made exactly one search, which found the declaration that the run reached |
| Scoping.StepAgrees | src/runtime/runtime.c:58-126 | One instruction keeps the scope stack equal to the compiler's variable list at the new address |
| Names.LookupsAgree | src/core/var.c:86-133 | Searching the scope stack from the top finds what searching the depth-tagged list finds |
| Names.InnermostScope | src/codegen/codegen_semantic.c:255-264 | In one scope, oldest-first search agrees with newest-first search because no name occurs twice at a depth |
| Names.UnwindMirrors | src/core/var.c:74-84 | Popping to a depth gives the stack of the list as it was before the deeper declarations |
| Analyser.LeaveRestores | src/codegen/codegen_semantic.c:70-89 | Leaving a scope gives back the variable list exactly as it was on entry |
| Analyser.BlockAgrees | src/codegen/codegen_semantic.c:1600-1715 | After a block the list that code generation assumes is the list of the semantic pass |
| Lookups.BlockAccounted | src/codegen/codegen_semantic.c:255-264 | At every load and store of the emitted code the variable that the compiler's list gives is the one that the pass found for that access |
| Lookups.BlockSingle | src/codegen/codegen_semantic.c:1451-1598 | The pass finds at most one declaration for each address |
| Acceptance.AcceptedIff | src/codegen/codegen_semantic.c:1600-1797 | As far as names go, a program is accepted exactly if every use is declared before in its own or an enclosing block, the innermost declaration of what is assigned is no constant, and no block declares a name twice |
| Acceptance.BlockIff | src/codegen/codegen_semantic.c:91-123 | The same of a block among given declarations: outer names may be declared again, names of the block itself may not |
| Spelling.SpelledAsWritten | src/codegen/codegen_helpers.c:90-115 | Every string reaches the program unchanged if and only if no two strings of the module have one hash |
| Spelling.AgreementIff | src/codegen/codegen_helpers.c:90-126 | The emitted program, in all runs, reports no error and reaches the declarations that the pass found, if and only if every instruction the program can come to spells its name apart from the others in sight |
| Spelling.Lockstep | src/codegen/codegen_helpers.c:90-126 | Until then the emitted program is in the state of the original with its names respelled |
| Spelling.CollisionFreeAgreement | src/codegen/codegen_helpers.c:90-126 | Without collisions the emitted code is the code, and the agreement of static and dynamic scoping holds of it |
| Spelling.CollisionBreaksAgreement | src/codegen/codegen_helpers.c:7-16 | Two colliding names of one length turn an accepted program into one that reports a duplicate declaration |
| Spelling.RealCollision | src/codegen/codegen_helpers.c:7-16 | `declinate` and `macallums` have one FNV-1a hash and do so |
| Depth.StatementNeutral | src/codegen/codegen_stmt.c:609-681 | Whatever happened in between, control reaches the end of a statement at the scope depth at which the activation entered it |
| Depth.CallNeutral | src/backends/llvm_backend_codegen.c:295-333 | After a call, recursive or not, the caller is at the depth it called from |
| Depth.ScopesStayInRange | src/core/var.c:44-84 | No run pops below the global scope or to a deeper depth; between 1 and 64 scopes exist |
| Depth.GuaranteedReturn | src/codegen/codegen_semantic.c:125-154 | No activation of a function that the return check accepts gets past the end of its body |
| Behaviour.RunFollowsText | src/codegen/codegen_stmt.c:1108-1143 | The accesses of every run of the emitted program are a beginning of the trace of its text under the outcomes of its tests, and that trace when it has halted |
| Behaviour.TextIsRun | src/codegen/codegen_stmt.c:1108-1143 | Every trace of the text is the accesses of some run under those outcomes |
| Simulation.IfRuns | src/codegen/codegen_stmt.c:609-645 | A true condition runs the first branch, a false one the second, if there is one |
| Simulation.WhileRuns | src/codegen/codegen_stmt.c:647-681 | The condition is tested again after the body and after `continue`; `break` leaves the loop |
| Simulation.ForInRuns | src/codegen/codegen_stmt.c:770-898 | The loop variable is declared once and assigned before each round; every failing test, and `break`, leads behind the loop |
| Simulation.CallRuns | src/backends/llvm_backend_codegen.c:295-333 | A call declares the parameters, runs the body of the function it names, and comes back |
| Simulation.BlockRuns | src/codegen/codegen_stmt.c:1134-1143 | The code of a block does what the trace of the block says, wherever it is placed |
| ReturnCheck.CheckIsExact | src/codegen/codegen_semantic.c:125-154 | For bodies without calls the check refuses exactly those that fall off their end under some outcomes |
| ReturnCheck.PassedReturns | src/codegen/codegen_semantic.c:125-154 | A body that passes does not end normally, whatever its tests and calls do |
| Depth.StepKeepsInv | src/codegen/codegen_stmt.c:953-1014 | Each instruction keeps the chain of activations with the depths their saved slots promise |
| Flow.BlockFlows | src/codegen/codegen_stmt.c:1134-1143 | In code emitted for a block every jump, branch and pop leads to a point with matching live scopes |
| Flow.ForInFlows | src/codegen/codegen_stmt.c:808-898 | The same of for-in with key extraction, length test, loop variable, fetch and all exits |
| Codegen.BlockLength | src/codegen/codegen_stmt.c:1108-1143 | The emitted code has the planned size, so branch targets are the intended addresses |
| Building.Builder.BuildExpr | src/codegen/codegen_stmt.c:360-363 | Appends exactly the loads and calls of an expression; fails exactly on a call of an unknown function |
| Building.Builder.BuildTest | src/codegen/codegen_stmt.c:40-56 | A condition followed by the branch on it |
| Building.Builder.BuildDecl | src/codegen/codegen_stmt.c:130-185 | The initializer, then a declaration; inside a function only if the name is missing |
| Building.Builder.BuildAssign | src/codegen/codegen_stmt.c:436-487 | The old value first if compound, then the value, then the store: to the scope stack, or in a function to a listed or plainly assigned local variable |
| Building.Builder.BuildReturn | src/codegen/codegen_stmt.c:953-976 | Pops to the function's base and returns; refused exactly outside a function or for an unknown call |
| Building.Builder.BuildJump | src/codegen/codegen_stmt.c:978-1014 | Break and continue pop to the depth saved by the innermost loop, then branch |
| Building.Builder.BuildSimple | src/codegen/codegen_stmt.c:1108-1126 | A statement without a body emits its planned code and adds its variable, or is refused exactly if it does not build |
| Building.Builder.EnterScope | src/codegen/codegen_stmt.c:247-260 | A scope is pushed at top level only, with its base depth saved |
| Building.Builder.LeaveScope | src/codegen/codegen_stmt.c:65-70 | The scope is popped to its base and control goes on after it |
| Building.Builder.BuildArm | src/codegen/codegen_stmt.c:230-260 | A body is emitted in its own scope and loop, and afterwards loop state and live scopes are the outer ones |
| Building.Builder.BuildBlock | src/codegen/codegen_stmt.c:1134-1143 | Emits the block's code and leaves the loop state as it was; fails exactly if some statement does not build |
| Building.Builder.BuildStmt | src/codegen/codegen_stmt.c:1108-1132 | The same for one statement, with the variable list it leaves behind |
| Building.Builder.BuildIf | src/codegen/codegen_stmt.c:609-645 | Both branches join at the merge point, an absent else branches there at once |
| Building.Builder.BuildWhile | src/codegen/codegen_stmt.c:647-681 | Condition, body with its scope, back edge; break leaves to the end, continue to the condition |
| Building.Builder.BuildForIn | src/codegen/codegen_stmt.c:808-898 | The head, the body with the loop variable set first, the increment block and the back edge |
| Building.Builder.BuildForInHead | src/codegen/codegen_stmt.c:770-858 | Key extraction for dictionaries, length test, declaration in the enclosing scope, loop test, fetch |
| Building.BuildPrologue | src/backends/llvm_backend_codegen.c:266-300 | A function pushes its scope and declares its parameters in it |
| Building.BuildFunction | src/backends/llvm_backend_codegen.c:312-333 | Prologue, body, and the epilogue if the body can fall off its end; fails exactly if the body does not build |
| Building.BuildProgram | src/backends/llvm_backend_codegen.c:209-264 | A program is emitted in full exactly if all of it builds |
| SemanticPass.Pass.LeaveScopes | src/codegen/codegen_semantic.c:70-89 | Unlinks exactly the variables of the current depth or deeper; the depth does not fall below 0 |
| SemanticPass.Pass.Declare | src/codegen/codegen_semantic.c:91-123 | A variable goes in front of the list unless its name is taken at this depth |
| SemanticPass.Pass.FindInScope | src/codegen/codegen_semantic.c:255-264 | The newest variable of that name not deeper than the current depth |
| SemanticPass.Pass.AnalyzeExpr | src/codegen/codegen_semantic.c:1451-1598 | As far as names go, an expression is accepted exactly if every variable it uses is found, and the searches are recorded |
| SemanticPass.Pass.AnalyzeStmt | src/codegen/codegen_semantic.c:1600-1797 | As far as names, depth and constness go, the pass accepts exactly what the analysis function accepts, leaves its list and the old depth, and has made its searches |
| SemanticPass.Pass.AnalyzeArm | src/codegen/codegen_semantic.c:1685-1716 | A branch or loop body in a scope of its own |
| SemanticPass.Pass.AnalyzeForIn | src/codegen/codegen_semantic.c:1733-1766 | The loop variable is declared in the scope of the body |
| SemanticPass.Pass.AnalyzeBlock | src/codegen/codegen_semantic.c:1689-1694 | Statements are analysed in order up to the first that is rejected |
| ScopeStack.Scopes.PushScope | src/core/var.c:44-51 | An empty scope on top, or an overflow error and no change at 64 scopes |
| ScopeStack.Scopes.PopScope | src/core/var.c:53-64 | The top scope goes; the global scope is never popped |
| ScopeStack.Scopes.PopToScopeDepth | src/core/var.c:74-84 | Keeps exactly the outermost scopes up to the target, or refuses a target out of range |
| ScopeStack.Scopes.FindIn | src/core/var.c:101-130 | The index of the first variable of that name in one scope |
| ScopeStack.Scopes.GetVariable | src/core/var.c:86-133 | The innermost variable of that name; none for a name of length 0 or of 255 and more |
| ScopeStack.Scopes.DeclareVariable | src/core/var.c:166-241 | A new variable on top, or an error and no change: taken name, 256 variables, long name |
| ScopeStack.Scopes.DeclareIfMissing | src/runtime/runtime.c:77-85 | Declares only a name that no open scope has |
| ScopeStack.Scopes.Access | src/runtime/runtime.c:87-126 | A load or an assignment reaches the looked-up declaration; unknown names and constants are refused |
| ScopeLaws.ResolveIff | src/core/var.c:86-133 | The lookup finds the first variable of the name in the innermost scope that has one, and nothing exactly if none has |
| ScopeLaws.TouchIff | src/runtime/runtime.c:87-126 | A load or assignment is refused exactly for an unusable or unknown name or an assignment to a constant |
| ScopeLaws.DeclareIff | src/core/var.c:166-241 | A declaration is refused exactly for a taken name, a full scope or a long name; otherwise that name changes its meaning and no other does |
| ScopeLaws.MissingIff | src/runtime/runtime.c:77-85 | Declaring what is missing never reports a duplicate and leaves a known name alone |
| ScopeLaws.PushThenUnwind | src/core/var.c:44-84 | Pushing a scope hides nothing, and popping to the depth before restores the stack |
| Superclass.CommonSuperclass | src/codegen/codegen_semantic.c:404-426 | The search finds the least common ancestor, or none exactly if there is no common ancestor |
| Superclass.IsAncestor | src/codegen/codegen_semantic.c:416-423 | The inner walk finds a class exactly if it is an ancestor |
| Superclass.FindClass | src/codegen/codegen_semantic.c:368-377 | The newest class of that name |
| Superclass.FindIff | src/codegen/codegen_semantic.c:368-377 | The first class of the name, and none exactly if no class has it |
| Superclass.AncestorsIff | src/codegen/codegen_semantic.c:416-423 | The ancestors of a registered class are what the parent relation of the registry reaches from it |
| Superclass.Infer | src/codegen/codegen_semantic.c:1085-1117 | The element type of an array literal is that of its elements or the least common ancestor of all of them; none exactly if there is none |
| Superclass.OrderIrrelevant | src/codegen/codegen_semantic.c:1085-1117 | The inferred element type, or the failure, depends only on which element types occur |
| Superclass.LeastIsUnique | src/codegen/codegen_semantic.c:404-426 | There is at most one least common ancestor |
| Superclass.Chain | src/codegen/codegen_semantic.c:415-424 | The ancestors of one class form a chain |
| Unboxing.FastPathAgrees | src/codegen/codegen_unboxing.c:47-321 | On every run free of overflow and zero divisors, if each unary minus negates alike, the compiled code leaves, once boxed, the value that the runtime operators compute bottom-up |
| Unboxing.IntsAgree | src/codegen/codegen_unboxing.c:202-227 | Raw 64-bit arithmetic with truncating division and remainder equals the boxed operator where it fits |
| Unboxing.DoublesAgree | src/codegen/codegen_unboxing.c:229-262 | Raw double operators equal the boxed ones |
| Unboxing.MinusIff | src/codegen/codegen_unboxing.c:274-321 | Unary minus on an operand computed right is right if and only if it negates alike |
| Unboxing.BoxedMinusAgreesIff | src/codegen/codegen_unboxing.c:274-321 | Raw unary minus on any boxed operand agrees exactly if the operand's value is no number |
| Unboxing.NegatedZeroDiffers | src/codegen/codegen_unboxing.c:274-321 | In real arithmetic with signed zeros, raw negation and zero minus operand differ on 0.0 and on nothing else |
| Unboxing.UnboxThenBoxIff | src/codegen/codegen_unboxing.c:15-45 | Unboxing at a type and boxing again is the identity exactly on values of that type |
| Unboxing.IntsStayRaw | src/codegen/codegen_unboxing.c:202-227 | Integer arithmetic over literals and unboxed variables compiles without boxes and runtime calls |
| Unboxing.TestsStayRaw | src/codegen/codegen_unboxing.c:191-272 | So do comparisons of such integers or doubles and their negations |
| Unboxing.Emitter.Build | src/codegen/codegen_unboxing.c:74-156 | The builder appends the code of an expression and returns the kind and register of its result |
| Unboxing.Emitter.BuildBinary | src/codegen/codegen_unboxing.c:191-272 | Raw code for two raw operands of one kind and a supported operator, otherwise box and call |
| Unboxing.Emitter.EnsureBoxed | src/codegen/codegen_unboxing.c:3-6 | A boxed operand is left alone, a raw one is boxed |
| Unboxing.Emitter.BuildMinus | src/codegen/codegen_unboxing.c:274-321 | Raw negation for raw numbers, an empty slot for other raw-path operands, zero minus operand elsewhere |
| Unboxing.Emitter.BuildNot | src/codegen/codegen_unboxing.c:274-321 | A raw boolean is flipped, anything else goes to the runtime |
| Values.QuotRem | src/runtime/value_ops.c:524-574 | Quotient and remainder truncate: quotient times divisor plus remainder is the dividend, and the remainder has its sign |
| OperatorLaws.AndIsBoth | src/runtime/value_ops.c:601-611 | Conjunction is true exactly if both operands are, and defined on booleans alone |
| OperatorLaws.OrIsDual | src/runtime/value_ops.c:601-611 | Disjunction is the De Morgan dual of conjunction through negation |
| OperatorLaws.NotIsInvolution | src/runtime/value_ops.c:424-432 | Negation changes every boolean and undoes itself |
| OperatorLaws.UnequalIsNotEqual | src/runtime/value_ops.c:434-522 | On values of any type `!=` is the negation of `==` |
| OperatorLaws.GreaterIsLess | src/runtime/value_ops.c:434-522 | `>` is `<` with its operands exchanged |
| OperatorLaws.AtLeastIsAtMost | src/runtime/value_ops.c:434-522 | `>=` is `<=` with its operands exchanged |
| OperatorLaws.OrderIsTotal | src/runtime/value_ops.c:434-522 | On integers, booleans and strings: `==` is equality, `<=` is `<` or `==`, and exactly one of `<`, `==`, `>` holds |
| OperatorLaws.OrderIsTransitive | src/runtime/value_ops.c:434-522 | `<` is transitive on each of them |
| OperatorLaws.IntOrder | src/runtime/value_ops.c:441-451 | On integers the six comparisons are the six relations |
| OperatorLaws.ObjectsCompare | src/runtime/value_ops.c:501-516 | Objects of one kind are equal exactly if they are one object and are not ordered; different types and nil are not compared |
| OperatorLaws.PrefixIsLess | src/runtime/value_ops.c:488-499 | A proper prefix of a string comes before it |
| OperatorLaws.FirstDifferenceDecides | src/runtime/value_ops.c:488-499 | Otherwise the first different character decides the order of strings |
| OperatorLaws.StringSum | src/runtime/value_ops.c:45-80 | The sum of two strings is the left one followed by the right one |
| OperatorLaws.IntegerArithmetic | src/runtime/value_ops.c:524-574 | Sums, differences and products of integers obey the laws that determine them |
| OperatorLaws.IntegerDivision | src/runtime/value_ops.c:524-574 | Quotient and remainder exist exactly for a non-zero divisor, truncate, and give back the dividend |
| OperatorLaws.MixedArithmetic | src/runtime/value_ops.c:32-80 | Numbers that are not both integers are promoted and the double operation is applied in order |
| OperatorLaws.ArithmeticDomain | src/runtime/value_ops.c:524-574 | Nothing else has arithmetic, except the sum of two strings |
| Typing.InferenceIsSound | src/codegen/codegen_semantic.c:970-1071 | A guarded expression of inferred type T gives a value of type T or stops at a zero divisor; an unguarded one never gives a value |
| Typing.InferIff | src/codegen/codegen_semantic.c:970-1071 | Inference gives exactly the type that the typing rules derive, and none exactly if no rule applies |
| Typing.MismatchIff | src/runtime/value_ops.c:424-621 | The operand types alone decide whether an operator ends in a type mismatch |
| Typing.OperatorKeepsType | src/runtime/value_ops.c:45-80 | What an operator returns has the type that inference predicts |
| Typing.UnguardedFails | src/codegen/codegen_semantic.c:988-1022 | Comparing an integer with a boolean, and a remainder of doubles, are inferred and refused |
| RoundTrip.ParseInvertsDump | src/compiler/ast/ast_dump.c:12-110 | Parsing the printed text gives the tree back if its operators print as they are written, no dot follows a number and nothing prints as `<expr>`, and fails otherwise |
| RoundTrip.DumpIsInjective | src/compiler/ast/ast_dump.c:12-110 | Two different printable trees have different texts |
| RoundTrip.NumberMemberIsLost | src/compiler/ast/ast_expr_parser.c:885-925 | The text of a plain member of a number literal is never accepted: the number takes the dot |
| Reading.DumpReads | src/compiler/ast/ast_expr_parser.c:537-672 | Reading a printed expression, before any text that may follow one, consumes exactly its text |
| Reading.DumpFails | src/compiler/ast/ast_expr_parser.c:579-613 | A printed operator code, a dot after a number or `<expr>` anywhere in the tree makes the parser fail or stop at a name |
| RoundTrip.EmptyDictIsLost | src/compiler/ast/ast_expr_parser.c:245-413 | The text of the empty dictionary is read as the empty array |
| SourceText.SourceReads | src/compiler/ast/ast_expr_parser.c:537-672 | Every tree is what the parser makes of its source text, written with the operators of the language and only the parentheses that precedence and grouping demand |
| SourceText.Grouping | src/compiler/ast/ast_expr_parser.c:537-657 | Without parentheses, operators of one level group to the left and a tighter operator is grouped first |
| SourceText.TemplateReads | src/compiler/ast/ast_expr_parser.c:674-883 | A literal with interpolations is the sum, from left to right, of its non-empty texts and of its expressions as strings |
| Source.LiteralReads | src/compiler/ast/ast_expr_parser.c:674-883 | However a string is written with escapes, its literal is read as the string |
| SourceText.Gaps | src/compiler/ast/ast_expr_parser.c:1174-1186 | White space and line comments are passed over between tokens, and nothing else is |
| SourceText.ArgumentsMayTrail | src/compiler/ast/ast_expr_parser.c:1095-1155 | A comma may stand behind the last argument |
| SourceText.ItemsMayTrail | src/compiler/ast/ast_expr_parser.c:245-413 | A comma may stand behind the last element of an array |
| Reading.NotKeyword | src/compiler/ast/ast_expr_parser.c:927-955 | A name is taken for a keyword only if it is that keyword |
| Reader.Cursor.SkipWhitespace | src/compiler/ast/ast_expr_parser.c:1174-1186 | The cursor passes all white space and line comments |
| Reader.Cursor.ReadName | src/compiler/ast/ast_expr_parser.c:55-57 | The longest run of name characters |
| Reader.Cursor.ParseExpression | src/compiler/ast/ast_expr_parser.c:426-428 | The cursor parser reads what the grammar says and stops where it says |
| Reader.Cursor.ParseLogicalOr | src/compiler/ast/ast_expr_parser.c:537-556 | The loop folds `\|\|` to the left |
| Reader.Cursor.ParseLogicalAnd | src/compiler/ast/ast_expr_parser.c:558-577 | The loop folds `&&` to the left |
| Reader.Cursor.ParseComparison | src/compiler/ast/ast_expr_parser.c:579-613 | At most one comparison, two-character operators first |
| Reader.Cursor.ParseTerm | src/compiler/ast/ast_expr_parser.c:615-635 | The loop folds sums to the left |
| Reader.Cursor.ParseFactor | src/compiler/ast/ast_expr_parser.c:637-657 | The loop folds products to the left |
| Reader.Cursor.ParseUnary | src/compiler/ast/ast_expr_parser.c:659-672 | Prefix operators nest to the right, then a primary and its suffixes |
| Reader.Cursor.ParsePostfix | src/compiler/ast/ast_expr_parser.c:992-1093 | The loop applies index, member and method suffixes in order |
| Reader.Cursor.ParseArguments | src/compiler/ast/ast_expr_parser.c:1095-1155 | The collected arguments are the grammar's, a trailing comma allowed |
| Reader.Cursor.ParsePrimary | src/compiler/ast/ast_expr_parser.c:927-990 | Keyword, group, string, number, bracket or name, in this order |
| Reader.Cursor.ParseNumber | src/compiler/ast/ast_expr_parser.c:885-925 | Digits with at most one dot, fewer than 1024 characters |
| Reader.Cursor.ParseStringLiteral | src/compiler/ast/ast_expr_parser.c:674-883 | Escapes are replaced and interpolations become a left-nested concatenation |
| Reader.Cursor.ParseIdentifier | src/compiler/ast/ast_expr_parser.c:50-243 | `self`, `super`, a struct literal, a call or a variable |
| Reader.Cursor.ParseFields | src/compiler/ast/ast_expr_parser.c:91-195 | The collected fields of a struct literal |
| Reader.Cursor.ParseArrayOrDict | src/compiler/ast/ast_expr_parser.c:245-413 | Empty dictionary, or elements after which the closing bracket is required |
| Reader.Cursor.ParseItems | src/compiler/ast/ast_expr_parser.c:289-386 | The first colon makes the literal a dictionary, and from then on every element needs one |
| Ownership.EveryRunIsOwned | src/core/value_core.c:27-96 | From the empty store, every run of owned operations keeps each count equal to the slots and handles that hold the object, and none waits at zero |
| Ownership.RunKeepsOwned | src/core/value_core.c:27-96 | The same from any store with that invariant |
| Ownership.ApplyOwned | src/core/value_array.c:51-105 | Each single operation keeps that invariant |
| Ownership.OnlyTheContainerChanges | src/core/value_dict.c:444-531 | However far releases cascade, an operation rewrites the slots of its own container alone, to the expected list, entries or fields |
| Ownership.SetKeyOwned | src/core/value_dict.c:444-531 | Setting a dictionary key keeps the counts on all paths: rejected type, replaced value, new entry |
| OwnedDict.SetPuts | src/core/value_dict.c:444-531 | Setting a key of a dictionary with string keys updates the pair of that text, or appends it, and rejects exactly other types |
| OwnedDict.EveryRunPuts | src/core/value_dict.c:444-531 | Over every run the content of such a dictionary is what the sets of the run put into it, whatever is released in between |
| OwnedDict.EveryRunIsOrderedMap | src/core/value_dict.c:444-546 | After every run no text occurs twice, texts are in first-insertion order, and each has its last value |
| OwnedDict.SetThenLookUp | src/core/value_dict.c:444-546 | After a set the text has the new value and every other text its own |
| OwnedDict.KeysAreAlive | src/core/value_dict.c:423-442 | With the counts right, the key strings of a counted dictionary are alive |
| ElementTypes.EveryRunIsTyped | src/core/value_array.c:69-105 | Over every run a declared array or dictionary holds nothing but its type; if nil is never stored, all that are not empty are declared |
| ElementTypes.FirstDeclares | src/core/value_array.c:69-89 | The first element declares the type, and from then on just that type is taken |
| ElementTypes.NilDeclaresNothing | src/core/value_array.c:69-89 | After nil an array takes an integer and a string |
| Ownership.RemoveOwned | src/core/value_array.c:265-298 | Removing an element hands its reference over with the counts right |
| Ownership.RetainCountsUnlessSaturated | src/runtime/memory.c:343-354 | A clone is counted exactly if the count is below its 32-bit maximum |
| Store.ReleaseFreesExactlyTheOwnerless | src/core/value_array.c:51-67 | After a cascading release an object is live exactly if it belongs to a set kept alive by remaining handles and its own members |
| Store.ReleaseCounted | src/core/value_struct.c:87-113 | A release consumes one handle, keeps all counts right and nowhere meets a zero count |
| Store.ReleaseShrinks | src/core/value_optional.c:29-42 | A release only lowers counts and frees, changes no slots, and leaves no object waiting at zero |
| Store.Release | src/runtime/memory.c:356-374 | The cascade ends, because the sum of counts falls |
| Containers.ArrayObject.EnsureRoom | src/core/value_array.c:80-86 | A full buffer doubles, from 8, with its slots kept |
| Containers.ArrayObject.Append | src/core/value_array.c:69-89 | The buffer and the counts change as the owned append says; a wrong type changes nothing |
| Containers.ArrayObject.Insert | src/core/value_array.c:212-263 | The same for insertion at any index, negative ones from the end, by shifting up |
| Containers.ArrayObject.Set | src/core/value_array.c:96-105 | The old value is released before the new one is cloned |
| Containers.ArrayObject.SetSafe | src/core/value_array.c:170-201 | The same with negative indices |
| Containers.ArrayObject.RemoveAt | src/core/value_array.c:265-298 | The slot is released and closed by shifting down; the caller gets its own reference |
| Containers.ArrayObject.ShiftUp | src/core/value_array.c:255-257 | The loop moves the slots one place up without losing any |
| Containers.ArrayObject.ShiftDown | src/core/value_array.c:291-293 | The loop closes the gap |
| Containers.StructObject.FindFieldIndex | src/core/value_struct.c:71-81 | The first field of that name |
| Containers.StructObject.SetField | src/core/value_struct.c:45-53 | One field slot is replaced with ownership; an unknown field is ignored |
| Containers.NewSome | src/core/value_optional.c:17-23 | The optional owns its own reference to the value |
| Containers.RemoveUndoesInsert | src/core/value_array.c:212-298 | Removing what was inserted gives the array back and leaves the caller one new reference |
| Containers.NegativeIndices | src/core/value_array.c:212-298 | Index -k means the k-th item from the last; beyond the ends nothing is removed and insertion is refused |
| Containers.MinusOneIsLast | src/core/value_array.c:212-298 | Index -1 takes the last item and inserts in front of it |
| Heap.Manager.Alloc | src/runtime/memory.c:138-161 | A new object is tracked once, in front |
| Heap.Manager.Retain | src/core/value_core.c:27-63 | A clone adds one to the count of what it refers to |
| Heap.Manager.ReleaseValue | src/core/value_core.c:65-96 | A released slot gives up its reference |
| Heap.Manager.Release | src/core/value_array.c:51-67 | The release in place computes the cascading release and untracks what it frees |
| Heap.Manager.MarkValue | src/runtime/memory.c:412-433 | A child is pushed if there is room, it is tracked and unmarked; writes stay below 8192 |
| Heap.Manager.PushChildren | src/runtime/memory.c:459-516 | All slots of the object are offered in order |
| Heap.Manager.MarkReachable | src/runtime/memory.c:435-519 | The worklist loop with its array stack computes the marks of the marking function and ends |
| Heap.Manager.SweepUnreachable | src/runtime/memory.c:563-595 | Exactly the unmarked objects with count zero are unlinked and freed |
| Heap.Manager.CollectCycles | src/runtime/memory.c:522-561 | Nothing while disabled; otherwise clearing, the two root loops and the sweep compute one collection, and a run that frees little raises the threshold |
| Marking.MarkingIsExactIff | src/runtime/memory.c:435-519 | With closed marks, exactly what is reachable from the root is added, whatever the cycles and sharing, if and only if every child that found the stack full ends up marked |
| Marking.MarkingIsExact | src/runtime/memory.c:435-519 | With closed marks and a stack that no child finds full, marking is exact and leaves the marks closed |
| Marking.FewReferencesFit | src/runtime/memory.c:412-433 | Fewer than 8192 references between unmarked tracked objects never fill the stack |
| Marking.MarkLoopSound | src/runtime/memory.c:448-519 | Even with dropped children, marks only grow and only by reachable objects |
| Marking.WideArrayMarked | src/runtime/memory.c:412-414 | Marking an array of n strings is exact exactly for n up to 8192 |
| Collector.ReachableIsNeverFreed | src/runtime/memory.c:522-595 | No object reachable from a handle is freed, whatever the bounded stack drops |
| Collector.CountedStay | src/runtime/memory.c:533-543 | Every tracked object with a positive count is marked, and exactly the unmarked tracked ones are freed |
| Collector.CollectIsExactIff | src/runtime/memory.c:522-595 | What is kept is exactly what counted objects or roots reach, if and only if every child that found the stack full is marked by the end |
| Collector.CollectIsExact | src/runtime/memory.c:522-595 | With no child that finds the stack full, what is kept is exactly what counted objects or roots reach |
| Collector.SmallHeapsAreExact | src/runtime/memory.c:522-595 | Fewer than 8192 references between tracked objects are few enough for that |
| Collector.CollectorKeepsCycles | src/runtime/memory.c:533-543 | With correct counts the collector changes nothing |
| Collector.GarbageCycleStays | src/runtime/memory.c:533-543 | An array that holds itself and that nothing else reaches is not freed |
| Collector.LeaksIff | src/runtime/memory.c:356-374 | Some live object is out of reach of all handles if and only if a non-empty set of live objects without handles has all its owners inside itself |
| Collector.AcyclicNeverLeaks | src/runtime/memory.c:356-374 | In a store without cycles every live object is reachable from a handle |
| Pool.AllocTakesNewBlock | src/runtime/memory.c:60-98 | An allocation never fails to find a bit, hands out a block that was not live and keeps the pool invariant |
| Pool.GrowsOnlyWhenFull | src/runtime/memory.c:60-98 | The pool grows by one chunk exactly when its newest chunk has no free block |
| Pool.FreeReturnsBlock | src/runtime/memory.c:100-125 | Returning a live block takes just that block away and keeps the invariant |
| Pool.FreeKeepsInvariantIff | src/runtime/memory.c:100-125 | Freeing a pointer into a chunk keeps the invariant exactly if its block was taken |
| Pool.BlocksAreConserved | src/runtime/memory.c:60-125 | 256 times the chunks is the live blocks plus all free counts |
| Memory.EveryRunIsSound | src/runtime/memory.c:138-188 | Over every run objects stay apart, statistics agree with the tracked list, and the peak is the running maximum |
| Memory.ReallocSound | src/runtime/memory.c:276-330 | Reallocation keeps the first bytes, zeroes the rest and touches no other object, although the old block is freed first |
| Memory.AllocSound | src/runtime/memory.c:241-274 | An allocation is zero behind its header, apart from all others, and accounted |
| Memory.AllocHeads | src/runtime/memory.c:262-264 | The header of a new object holds its kind and a count of one |
| Memory.SmallObjectsArePooled | src/runtime/memory.c:245-259 | Objects of up to 64 bytes, and no others, live in blocks of the pool |
| Memory.FreeSound | src/runtime/memory.c:332-341 | Freeing forgets just that object and moves no byte |
| Memory.SweepSound | src/runtime/memory.c:563-595 | A sweep frees exactly the listed objects with the accounting kept |
| Memory.ExtentsDisjoint | src/runtime/memory.c:72-125 | No two tracked objects share an address |
| Memory.UntrackedReallocAccountedIff | src/runtime/memory.c:276-330 | Reallocating an untracked address keeps the byte accounting exactly for size 0 |
| Allocator.BlockManager.TakeBlock | src/runtime/memory.c:82-97 | The scan of the bitmap words takes the lowest free block and never runs off its end |
| Allocator.BlockManager.PoolAlloc | src/runtime/memory.c:72-98 | Adds a chunk in front if needed and takes a block |
| Allocator.BlockManager.PoolFree | src/runtime/memory.c:100-125 | The chunk walk returns the block, or reports a foreign pointer |
| Allocator.BlockManager.Track | src/runtime/memory.c:138-161 | The node and the statistics of a new object |
| Allocator.BlockManager.Untrack | src/runtime/memory.c:163-188 | The first node of the address is unlinked and accounted |
| Allocator.BlockManager.Alloc | src/runtime/memory.c:241-274 | Allocation in place keeps the objects apart and the statistics right |
| Allocator.BlockManager.Realloc | src/runtime/memory.c:276-330 | Reallocation in place, null included, keeps them too |
| Allocator.BlockManager.Free | src/runtime/memory.c:332-341 | Freeing in place keeps them too |
| HashTable.EveryRunRefines | src/core/value_dict.c:182-309 | Over every run of set, get and clear the table refines the map: probed distinct keys, right count, load at most three quarters |
| HashTable.ResizeRebuilds | src/core/value_dict.c:280-309 | From any table with distinct live keys and room, resizing yields a tombstone-free probed table with the same map and count |
| HashTable.SetRefines | src/core/value_dict.c:217-273 | Setting an accepted key always succeeds and changes the map at that key alone |
| HashTable.FirstTypesDecide | src/core/value_dict.c:217-273 | The first entry of an undeclared dictionary declares its types, and over every run of set, get and clear just these are accepted |
| HashTable.GetRefines | src/core/value_dict.c:182-207 | A lookup returns what the map holds |
| HashTable.FindSlotIff | src/core/value_dict.c:82-135 | The probe ends at a slot exactly if it is the first on the cyclic path that is not live with another key; -1 exactly if there is none |
| HashTable.FindsKey | src/core/value_dict.c:82-135 | On a probed table with room the probe ends at the key's slot or, for a missing key, at a free one |
| HashTable.FoundIff | src/core/value_dict.c:95-97 | A live entry is found exactly if no tombstone lies before it on its path |
| HashTable.RemoveHides | src/core/value_dict.c:362-401 | After a removal from a table without tombstones another key is still found exactly if the removed slot does not lie before its own on its path |
| HashTable.EveryRunHolds | src/core/value_dict.c:182-417 | Over every run of set, get, remove and clear that sets no hidden key the table holds the map: distinct keys, right count, load at most three quarters |
| HashTable.LookupIff | src/core/value_dict.c:182-207 | With tombstones anywhere a lookup gives the map's value or nothing, and the value exactly if no tombstone lies before the entry |
| HashTable.SetHoldsIff | src/core/value_dict.c:217-273 | An accepted set keeps the table right if and only if its key is not hidden when the value is put |
| HashTable.RebuiltRefines | src/core/value_dict.c:280-309 | Resizing makes a table with tombstones refine its map again |
| HashTable.RemoveThenSetDuplicates | src/core/value_dict.c:95-97 | Set 0, set 2, remove 0, set 2 stores 2 twice |
| HashTable.ClearRefines | src/core/value_dict.c:403-417 | A cleared table refines the empty map |
| HashDict.HashedDict.FindSlot | src/core/value_dict.c:82-135 | The do-while probe ends and computes the probe function |
| HashDict.HashedDict.Resize | src/core/value_dict.c:280-309 | The rehash loop computes the resize function |
| HashDict.HashedDict.SetSafe | src/core/value_dict.c:217-273 | Type checks, growth and insertion in place |
| HashDict.HashedDict.GetSafe | src/core/value_dict.c:182-207 | Lookup in place |
| HashDict.HashedDict.ContainsKey | src/core/value_dict.c:347-360 | True exactly if a lookup finds a value |
| HashDict.HashedDict.Remove | src/core/value_dict.c:362-401 | Leaves a tombstone and returns the removed value |
| HashDict.HashedDict.Clear | src/core/value_dict.c:403-417 | Empties the table in place |
| OrderedMap.RunIsOrderedMap | src/core/value_dict.c:444-546 | After any run of sets the keys are the accepted ones in first-insertion order and each has its last value |
| OrderedMap.FirstSeenDistinct | src/core/value_dict.c:444-531 | First-insertion order repeats no key and misses none |
| OrderedMap.FirstTypeDecides | src/core/value_dict.c:444-531 | The first value of an undeclared dictionary declares its type, and just the values of that type are taken |
| LinearDict.ScannedDict.Set | src/core/value_dict.c:444-531 | Scan, overwrite in place or append, growing first; a slot is always found |
| LinearDict.ScannedDict.Get | src/core/value_dict.c:533-546 | The scan returns the value of the key or none |
| LinearDict.ScannedDict.Grow | src/core/value_dict.c:478-510 | Doubling keeps all pairs in order |
| LinearDict.ScannedDict.Keys | src/core/value_dict.c:311-327 | The keys in first-insertion order across every growth |

## Left out

- LLVM: builder calls, modules, target machines and linking. Emitted code is a flat instruction list; basic blocks are addresses computed in advance.
- Values in the scope model: a variable is a name, a const flag and its declaration. Releasing values in `pop_scope`, type coercion on assignment and `bread_var_load`'s clone are not modelled.
- Behaviour.RunFollowsText: the accesses are variables and calls; the values that flow between them, and how a condition's value becomes an outcome, are not part of the scope model. Outcomes are free.
- ReturnCheck.CheckIsExact: bodies without calls; a call that never returns can keep a refused body from its end.
- Statement forms: index, member and print statements are expressions evaluated for their variable uses; range `for`, methods, constructors, struct and class declarations are not modelled.
- Optimisation of local variables: inside functions accesses to stack slots do not touch the scope stack; their values are not modelled.
- Scoping.StaticMeetsDynamic: top-level code without calls and `for-in`, within 64 scopes and 256 variables a scope, where the compiler and the runtime scope their variables alike; `for-in` declares its variable in different scopes on the two sides, and functions have one flat compile-time scope.
- SemanticPass.Pass.AnalyzeExpr: names only; the source also rejects unknown functions, wrong argument counts and expressions without a type, so every expression it accepts is accepted here.
- SemanticPass.Pass.AnalyzeStmt: names, depth and constness only; type compatibility, conditions that are not Bool and missing declared types also reject in the source, so every statement it accepts is accepted here.
- SemanticPass.Pass.AnalyzeForIn: the source also rejects an iterable without an element type.
- Spelling.AgreementIff: colliding strings of one length; with different lengths the copy of a name reads past the end of the shared string, which C leaves undefined.
- Superclass.Infer: requires an acyclic hierarchy; on a cyclic one the walk of the source need not end. Struct types are compared by name only.
- Allocation failure and debug output. The system allocator is a parameter with the promise that its blocks overlap nothing in use.
- Class objects in the ownership theorem: the parent reference is retained and not released, and the marker does not follow it.
- Heap.Manager.CollectCycles: the counters of allocations and bytes since the last collection, and the trigger in the allocator that they feed.
- Containers.ArrayObject.Append: slot buffers of different arrays are taken to be different, and a buffer is recorded in the store at the end of each step. Dictionaries with ownership are modelled on values (`Ownership.DictSet`); their in-place form is `LinearDict`.
- HashTable: keys are integers, booleans, nil and NUL-free strings; double keys and embedded NULs, where equality and hash disagree, are left out, and so is building from a literal with duplicate keys.
- Floating point: double operations are parameters shared by the fast path and the runtime, and `Float` values are held at double precision. Number formatting is left out; a double literal is its text.
- Reader.Cursor.ParseUnary: after a failed primary the source still looks for suffixes and can return a tree without a target, with the error already set; the model fails.
- Reader.Cursor.ParseNumber: an integer literal has its mathematical value; from 2147483648 on the source relies on `atoi`.
- Source locations in the tree, and the statement parser that isolates an expression's text.
- SourceText.SourceReads: integers below 2147483648, names that are no keywords, strings without NUL, decimal literals as texts; the text it writes has no optional blanks (`SourceText.Gaps` says what blanks and comments do).
- RoundTrip.ParseInvertsDump: integers below 2147483648, strings without quotes, backslashes and NULs, names that are no keywords, non-empty dictionaries, no double literals; the printer does not escape, and doubles lose digits.
- The interned-string table, escape and stability hints, modules, file access and the command line.
