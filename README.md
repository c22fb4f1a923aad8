# thegrep core in Dafny

A model of the three sequential components of `thegrep`, a small regular-expression
tool: the tokenizer (`src/tokenizer.rs`), the recursive-descent parser
(`src/parser.rs`) and the NFA engine (`src/nfa.rs`): Thompson-style construction
into an arena of states, simulation (`accepts`), random generation (`gen`) and the
`+` operator that splices two NFAs.

Each component takes the form the Rust code has.

- The tokenizer is a class whose field `chars` is the cursor into the pattern.
  `Next` and the `lex_*` helpers advance it, and `LexEndline` is a loop.
- The parser is a class with the token sequence and a cursor position `pos`.
  Each grammar routine is a method, proved equal to a pure function
  (`RegExprAt`, `CatenationAt`, ...) that gives its result and where it leaves
  the cursor.
- The NFA is a class with the fields `start` and `states`.
  - `AddState`, `Join`, `JoinFragment` and `GenFragment` update the arena in place.
  - `ParseState`, `Accepts`, `AnyEnd` and `Gen` are loops over worklists.
  - `Add` builds the spliced arena in two loops.
  - Each method is proved against a reference function: `Compile`, `ExpandAll`,
    `Accepted`, `Walk`, `Splice`. The properties are proved about those functions.

Modules:

| module | file | contents |
|---|---|---|
| `Wrappers` | wrappers.dfy | `Option`, `Result` |
| `Tokenizing` | tokenizer.dfy | tokens, the class `Tokenizer`, the token sequence `Tokens` |
| `Parsing` | parser.dfy | `AST`, errors, the grammar functions, the class `Parser` |
| `ParserProperties` | parser_props.dfy | round trip through a renderer, no double Kleene operators, right nesting |
| `NfaGraph` | nfa_graph.dfy | `State`, `Char`, `Fragment`, `join`, well-formedness, ranks |
| `NfaClosure` | nfa_closure.dfy | what `parse_state` expands to, one simulation step, the verdict `Accepted` |
| `NfaPaths` | nfa_paths.dfy | walks through the graph; `Accepted` against reachability |
| `NfaBuild` | nfa_build.dfy | `gen_fragment` and `from` as functions; the shape of what they build |
| `NfaGen` | nfa_gen.dfy | `gen` as a function of its draws; what it produces is exactly what reaches End |
| `NfaCompose` | nfa_compose.dfy | the splice of `+`; its well-formedness and its language |
| `NfaEngine` | nfa.dfy | the class `Nfa` and its methods |
| `TokenizerExamples`, `ParserExamples`, `NfaBuildExamples`, `NfaExamples`, `NfaSumExamples` | *_examples.dfy | the unit tests of the three files, as lemmas |

Randomness in `gen` becomes two oracle sequences: coin flips for the splits and
letters for `.`. When the oracles run out, `Gen` returns `None`.

Termination of `parse_state` and of the simulation needs a rank on the states.
It is a ghost parameter that decreases along every Split link and every Start link.
`Ranked(states, rank)` is the precondition that says no cycle is made of those links
only. `(a*)*` is the pattern that breaks it (`NfaSumExamples.StarStarUnranked`).

Behaviours of the code that the model keeps:

- The expansion of splits keeps no visited set. It recurses on both links of every
  Split it meets, and so does the model, under the `Ranked` precondition.
- `accepts` on the empty input answers whether the start state is End. So it is
  always false for an NFA `from` builds.
- The final look at the frontier, after the last character, expands splits but does
  not follow Start states. So `a` + `b*` rejects `"a"`, although a walk reading
  `"a"` leads from Start to End (`NfaSumExamples.CharStarReachesA`).
  `NfaPaths.AcceptedIff` therefore needs a graph without links into Start states,
  which holds for every NFA `from` builds (`NfaBuild.BuildWellFormed`), and
  `NfaPaths.AcceptedSound` holds for any graph.
- `Parser::parse` checks for leftover tokens before it looks at the result of
  `reg_expr`, so leftover tokens hide an error (`ParserExamples.LeftoverHidesError`).

## Model

| member | source | states |
|---|---|---|
| `Tokenizing.TokenOf` | src/tokenizer.rs:58-67 | the token of a character has that character as its lexeme; it is a `Char` exactly when the character is none of `()|*.+` |
| `Tokenizing.SkipEndlines` | src/tokenizer.rs:156-163 | what is left after skipping is no longer than the input and does not start with a tab or a newline |
| `Tokenizing.SkipEndlinesDropsOnlySkipped` | src/tokenizer.rs:156-163 | skipping removes a prefix of the input, and every character of that prefix is a tab or a newline |
| `Tokenizing.TokensAreSignificantChars` | src/tokenizer.rs:164-215 | each token consumes exactly one character that is not a tab or a newline: there are as many tokens as such characters, and the k-th token is the token of the k-th such character |
| `Tokenizing.PlainTokens` | src/tokenizer.rs:56-71 | without tabs and newlines, every character gives one token, in order |
| `Tokenizing.LexemesOfTokens` | src/tokenizer.rs:164-215 | the lexemes of the tokens are exactly the characters that are not tabs or newlines |
| `Tokenizing.Tokenizer.constructor` | src/tokenizer.rs:38-42 | the cursor starts at the whole pattern |
| `Tokenizing.Tokenizer.LexEndline` | src/tokenizer.rs:156-163 | the loop consumes the leading tabs and newlines and nothing else |
| `Tokenizing.Tokenizer.LexLParen` | src/tokenizer.rs:164-170 | called on `(`, consumes it and yields `LParen` (its panic arm cannot be reached from `next`) |
| `Tokenizing.Tokenizer.LexRParen` | src/tokenizer.rs:172-178 | called on `)`, consumes it and yields `RParen` |
| `Tokenizing.Tokenizer.LexUnionBar` | src/tokenizer.rs:180-186 | called on `|`, consumes it and yields `UnionBar` |
| `Tokenizing.Tokenizer.LexKleeneStar` | src/tokenizer.rs:188-194 | called on `*`, consumes it and yields `KleeneStar` |
| `Tokenizing.Tokenizer.LexAnyChar` | src/tokenizer.rs:196-202 | called on `.`, consumes it and yields `AnyChar` |
| `Tokenizing.Tokenizer.LexChar` | src/tokenizer.rs:204-207 | consumes any character and yields it as a `Char` |
| `Tokenizing.Tokenizer.LexKleenePlus` | src/tokenizer.rs:209-215 | called on `+`, consumes it and yields `KleenePlus` |
| `Tokenizing.Tokenizer.Next` | src/tokenizer.rs:56-71 | skips tabs and newlines, then yields the token of the next character and consumes it; `None` exactly when nothing is left, and the tokens still to come are the rest of the token sequence |
| `Tokenizing.NextAfterExhausted` | src/tokenizer.rs:81-85 | once the input is exhausted, `next` returns `None` twice in a row |
| `TokenizerExamples.LexPhrase` | src/tokenizer.rs:136-148 | `"(2.\n*a)\n|b+"` lexes to the nine tokens of the test |
| `Parsing.TakeNextTokenAt` | src/parser.rs:313-319 | the next token and the cursor one further, or "Unexpected end of input" at the end with the cursor unmoved |
| `Parsing.PeekTokenAt` | src/parser.rs:322-330 | `*` or `+` exactly when the next token is a Kleene operator, and `*` exactly for `KleeneStar` |
| `Parsing.TakeTokenAt` | src/parser.rs:333-343 | consumes a Kleene operator and returns what `peek_token` reports; otherwise "KleeneStar not found." with the cursor unmoved |
| `Parsing.ConsumeTokenAt` | src/parser.rs:345-355 | succeeds exactly when the next token is the expected one; a different token is consumed and reported with the expected one; at the end, "Unexpected end of input" |
| `Parsing.RegExprAt` | src/parser.rs:149-167 | on success at least one token is consumed and the cursor stops at a `)` or at the end; the only errors are "Unexpected end of input" and "Unexpected atom encountered", so "Unexpected input" cannot occur |
| `Parsing.CatenationAt` | src/parser.rs:170-186 | on success the cursor stops only at a `|`, a `)` or the end; same two errors |
| `Parsing.ClosureAt` | src/parser.rs:189-210 | on success at least one token is consumed; same two errors |
| `Parsing.AtomAt` | src/parser.rs:214-234 | on success at least one token is consumed; same two errors |
| `Parsing.ParseTokens` | src/parser.rs:57-70 | succeeds exactly when `reg_expr` succeeds and uses every token; a leftover token gives "Expected end of input" whatever `reg_expr` returned |
| `Parsing.Parser.constructor` | src/parser.rs:58-60 | the parser starts at the first token of the tokenizer's sequence |
| `Parsing.Parser.Parse` | src/parser.rs:57-70 | returns the parse of the whole token sequence of the tokenizer's input |
| `Parsing.Parser.RegExpr` | src/parser.rs:149-167 | result and new cursor are those of `RegExprAt` at the old cursor; the tokens do not change |
| `Parsing.Parser.Catenation` | src/parser.rs:170-186 | result and new cursor are those of `CatenationAt` |
| `Parsing.Parser.Closure` | src/parser.rs:189-210 | result and new cursor are those of `ClosureAt` |
| `Parsing.Parser.Atom` | src/parser.rs:214-234 | result and new cursor are those of `AtomAt` |
| `Parsing.Parser.TakeNextToken` | src/parser.rs:313-319 | result and new cursor are those of `TakeNextTokenAt` |
| `Parsing.Parser.PeekToken` | src/parser.rs:322-330 | the result of `PeekTokenAt`, the cursor unmoved |
| `Parsing.Parser.TakeToken` | src/parser.rs:333-343 | result and new cursor are those of `TakeTokenAt` |
| `Parsing.Parser.ConsumeToken` | src/parser.rs:345-355 | result and new cursor are those of `ConsumeTokenAt` |
| `ParserProperties.ParseShow` | src/parser.rs:16-24 | every tree is the parse of its fully parenthesised rendering, so each of the six kinds of node can come out of the parser |
| `ParserProperties.ShowParsesAsAtom` | src/parser.rs:214-234 | wherever a rendering occurs in the tokens, `atom` parses it back as that tree and stops right after it |
| `ParserProperties.AlternationAtom` | src/parser.rs:149-167 | `( l | r )` parses as the alternation of `l` and `r`, without a wrapper node for the parentheses |
| `ParserProperties.CatenationAtom` | src/parser.rs:170-186 | `( l r )` parses as the catenation of `l` and `r` |
| `ParserProperties.KleeneAtom` | src/parser.rs:189-210 | `( e * )` parses as a closure and `( e + )` as one-or-more |
| `ParserProperties.RegExprNoDoubleKleene` | src/parser.rs:189-210 | whatever `reg_expr` parses starts with no Kleene operator and holds no two Kleene operators in a row |
| `ParserProperties.AdjacentKleeneRejected` | src/parser.rs:189-210 | a token sequence with two Kleene operators in a row (`a**`, `a+*`) never parses |
| `ParserProperties.AtomRejectsOperator` | src/parser.rs:214-234 | a `)`, `|`, `*` or `+` where an atom must start gives "Unexpected atom encountered", and `reg_expr` passes that error up |
| `ParserProperties.ParseLiterals` | src/parser.rs:170-186 | a run of literals parses as their catenation nested to the right |
| `ParserProperties.AlternativesNestRight` | src/parser.rs:149-167 | from any even position, literals separated by `|` parse with `reg_expr` to the end, as their alternation nested to the right |
| `ParserProperties.ParseAlternatives` | src/parser.rs:57-70 | literals separated by `|` parse as their alternation nested to the right |
| `ParserExamples.AlternationNestsRight` | src/parser.rs:149-167 | `a|b|c` parses as the alternation of `a` with the alternation of `b` and `c` |
| `ParserExamples.ParseAll` | src/parser.rs:125-140 | `ab|c+d*(e.)` parses to exactly the tree of the test |
| `ParserExamples.ParseClosure` | src/parser.rs:95-101 | `a.*` parses as `a` followed by the closure of `.` |
| `ParserExamples.CatenationOfClosure` | src/parser.rs:287-295 | `catenation` on `a*cb` gives the closure of `a` followed by the catenation of `c` and `b` |
| `ParserExamples.AtomParenthesised` | src/parser.rs:277-284 | `atom` on `(ab)` gives the catenation of `a` and `b`, with no wrapper node |
| `ParserExamples.UnionBarFail` | src/parser.rs:250-255 | `reg_expr` on `a|` fails with "Unexpected end of input" |
| `ParserExamples.RParenFail` | src/parser.rs:297-302 | `atom` on `(a` fails with "Unexpected end of input" |
| `ParserExamples.LeftoverHidesError` | src/parser.rs:57-70 | on `a**b` `reg_expr` fails with "Unexpected atom encountered", yet `parse` reports the leftover `b` instead |
| `NfaGraph.Patch` | src/nfa.rs:539-546 | `join` on one state sets the link of a Start or a Match, only the second link of a Split, and leaves End alone; the kind of state and a Match's label do not change |
| `NfaGraph.Join` | src/nfa.rs:539-546 | only the state `from` changes, and it is patched to `to` |
| `NfaEngine.Nfa.constructor` | src/nfa.rs:447-452 | `NFA::new` has no states and start 0 |
| `NfaEngine.Nfa.AddState` | src/nfa.rs:457-461 | returns the old length, appends exactly that state and leaves every earlier state and the start alone |
| `NfaEngine.Nfa.Join` | src/nfa.rs:539-546 | the arena becomes `NfaGraph.Join` of the old arena |
| `NfaEngine.Nfa.JoinFragment` | src/nfa.rs:527-531 | joins every loose end of the fragment to `to`, in order |
| `NfaEngine.Nfa.GenFragment` | src/nfa.rs:467-522 | the new arena and the fragment are `Compile` of the AST on the old arena |
| `NfaBuild.Compile` | src/nfa.rs:467-522 | the states already in the arena are kept, and the fragment's start and loose ends are new states |
| `NfaBuild.CompileShape` | src/nfa.rs:467-522 | every state a fragment adds is a Match or a Split whose links stay inside the fragment and point past it, and the loose ends are exactly the states with an unset link |
| `NfaBuild.CatenationShape` | src/nfa.rs:483-491 | the catenation starts at the left start, keeps the right ends, and every left end is now linked to the right start |
| `NfaBuild.AlternationShape` | src/nfa.rs:492-500 | the alternation starts at a new Split to both starts, and its ends are the left ends then the right ends |
| `NfaBuild.StarShape` | src/nfa.rs:501-519 | closure and one-or-more add a Split back to the body, join the body's ends to it, and leave that Split as the only loose end |
| `NfaBuild.BuildShape` | src/nfa.rs:44-60 | the NFA `from` builds starts with a Start linked to the body, ends with the only End, and every state in between is shaped |
| `NfaBuild.BuildWellFormed` | src/nfa.rs:44-60 | the NFA `from` builds is well formed (Start first, the only End last, every link set and in range), and no link leads into a Start state |
| `NfaEngine.Nfa.From` | src/nfa.rs:44-60 | succeeds exactly when the pattern parses; the NFA then has start 0 and the arena `FromPattern` describes; otherwise the parse error |
| `NfaClosure.ExpandOne` | src/nfa.rs:548-575 | the expansion of one id holds no Split and is never empty; an id that is not a Split is kept as it is |
| `NfaClosure.ExpandAll` | src/nfa.rs:548-575 | the expansion of a list holds no Split |
| `NfaEngine.Nfa.ParseState` | src/nfa.rs:548-575 | appends to `current` the expansion of `next_states`, left branch first, and empties `next_states`; it terminates on ranked graphs |
| `NfaPaths.ExpandIsClosure` | src/nfa.rs:548-575 | without links into Start states, what `parse_state` expands a state to is what a step of `accepts` visits from it |
| `NfaEngine.Nfa.AnyEnd` | src/nfa.rs:100-106 | the last loop of `accepts` answers true exactly when one of the ids names an End state |
| `NfaEngine.Nfa.Accepts` | src/nfa.rs:66-107 | the answer is the verdict `Accepted` of the reference simulation |
| `NfaPaths.AcceptedSound` | src/nfa.rs:66-107 | whatever `accepts` accepts has a prefix that leads from the start to an End state, in any graph |
| `NfaPaths.AcceptedIff` | src/nfa.rs:66-107 | without links into Start states, `accepts` answers true exactly when the input is not empty and some prefix of it leads from Start to End |
| `NfaPaths.AcceptedExtends` | src/nfa.rs:75-96 | acceptance is kept when the input is extended, since `accepts` answers as soon as it reaches End |
| `NfaPaths.RunSound` | src/nfa.rs:69-96 | whatever one simulation run accepts from a frontier, some prefix of the input leads from the frontier to End |
| `NfaPaths.RunComplete` | src/nfa.rs:69-106 | without links into Start states, and without Start states left in the frontier at the end, every prefix that reaches End is accepted |
| `NfaEngine.FromAccepts` | src/nfa.rs:44-107 | for an NFA `from` builds, `accepts` answers exactly whether some prefix of a non-empty input leads from Start to End |
| `NfaEngine.Nfa.Gen` | src/nfa.rs:110-163 | the result is the walk `Walk` from the start state for the given draws |
| `NfaGen.WalkPath` | src/nfa.rs:110-163 | every string `gen` produces is read along a walk from the start to an End state |
| `NfaGen.PathDraws` | src/nfa.rs:110-163 | every walk to End is what `gen` produces for some draws |
| `NfaGen.GenIff` | src/nfa.rs:110-163 | the strings `gen` can produce are exactly the strings read from the start to an End state |
| `NfaGen.GenAccepted` | src/nfa.rs:348-394 | in a graph without links into Start states, `accepts` accepts every non-empty string `gen` produces |
| `NfaEngine.FromGenAccepted` | src/nfa.rs:348-394 | for an NFA `from` builds, `accepts(gen())` holds whenever `gen` produces a non-empty string |
| `NfaEngine.Nfa.Add` | src/nfa.rs:578-621 | the sum has start 0 and the arena `Splice` of the two arenas |
| `NfaCompose.Shift` | src/nfa.rs:598-615 | a right-hand state keeps its kind and, for a Match, its label |
| `NfaCompose.ShiftTargets` | src/nfa.rs:598-615 | a shifted state links to `y` exactly when `y` is at least the offset and the original state links to `y` minus the offset |
| `NfaCompose.DropEnds` | src/nfa.rs:588-595 | what is copied from the left NFA holds no End state and is no longer than it |
| `NfaCompose.DropNoEnds` | src/nfa.rs:588-595 | a sequence without End states is copied unchanged |
| `NfaCompose.SpliceAt` | src/nfa.rs:578-621 | the sum has `|lhs| - 1 + |rhs|` states; the left states other than End keep their indices; right state `j` lands at `|lhs| - 1 + j` with its links offset by `|lhs| - 1` |
| `NfaCompose.SpliceWellFormed` | src/nfa.rs:578-621 | the sum of two well-formed NFAs is well formed |
| `NfaCompose.SpliceReaches` | src/nfa.rs:578-621 | a string leads from Start to End in the sum exactly when it splits into a part that does so in the left NFA and a part that does so in the right NFA |
| `NfaBuildExamples.FromDots` | src/nfa.rs:243-244 | `.....` builds a chain of five matching states between Start and End |
| `NfaBuildExamples.FromChar` | src/nfa.rs:44-60 | a plain character `x` builds Start, a Match on `x`, End |
| `NfaBuildExamples.FromTwo` | src/nfa.rs:44-60 | two plain characters build Start and two chained Match states before End |
| `NfaBuildExamples.FromStar` | src/nfa.rs:501-510 | `x*` builds Start linked to a Split that loops through the Match on `x` and leaves to End |
| `NfaBuildExamples.FromStarStar` | src/nfa.rs:501-510 | `(a*)*` builds an arena whose two splits link to each other |
| `NfaExamples.DotsAccepted` | src/nfa.rs:243-253 | `.....` accepts exactly the inputs of at least five characters |
| `NfaExamples.DotsTests` | src/nfa.rs:243-253 | `.....` accepts "yikes", "zoned" and "alimony" and rejects "yay" and "oreo" |
| `NfaBuildExamples.FromHello` | src/nfa.rs:318-319 | `hel+o` builds Start, `h`, `e`, `l`, a Split back to `l`, `o`, End |
| `NfaExamples.HelloAccepts` | src/nfa.rs:318-322 | `hel+o` accepts `he`, one or more `l`, then `o` |
| `NfaExamples.HelloRejects` | src/nfa.rs:318-322 | `hel+o` rejects `he` not followed by `l` |
| `NfaExamples.HelloTests` | src/nfa.rs:318-322 | `hel+o` accepts "helllllllllo" and rejects "heo" |
| `NfaSumExamples.AddOverloadOperands` | src/nfa.rs:325-327 | the arenas `from` builds for `ab` and `cd` |
| `NfaSumExamples.AbCdAccepted` | src/nfa.rs:325-330 | `ab` + `cd` accepts exactly the inputs that start with "abcd" |
| `NfaSumExamples.AddOverloadTest` | src/nfa.rs:325-330 | the sum of `ab` and `cd` is the spliced arena and accepts "abcd" |
| `NfaSumExamples.OverloadKleeneOperands` | src/nfa.rs:333-335 | the arenas `from` builds for `a*` and `b*` |
| `NfaSumExamples.StarSumAccepted` | src/nfa.rs:333-341 | `a*` + `b*` accepts every non-empty input |
| `NfaSumExamples.OverloadKleeneTest` | src/nfa.rs:333-341 | the sum of `a*` and `b*` accepts "a", "b", "ab" and "aabbb" |
| `NfaSumExamples.CharStarAccepted` | src/nfa.rs:99-106 | `a` + `b*` accepts an input only when at least two characters follow, the first being `a` |
| `NfaSumExamples.CharStarOperands` | src/nfa.rs:44-60 | the arenas `from` builds for `a` and `b*` |
| `NfaSumExamples.CharStarReachesA` | src/nfa.rs:99-106 | `a` + `b*` reads "a" from Start to End, links into its right Start state, and still rejects "a" |
| `NfaSumExamples.StarStarUnranked` | src/nfa.rs:548-575 | `(a*)*` builds an arena whose two splits link to each other, so no rank exists and `parse_state` would not terminate on it |
| `NfaSumExamples.GenEmptyStar` | src/nfa.rs:110-163 | `gen` on `a*` produces "" when its first flip leaves the loop and "a" when it loops once; `accepts` takes "a" but not "" |

## Left out

- `src/main.rs` is not part of this model: command-line options, reading files and
  standard input, printing and the exit code. Its `.*{}.*` wrapping of the pattern is
  done by the caller.
- `nfa::helpers::nfa_dot` is not part of this model; its source is not shown.
- Real randomness (`thread_rng`, `rand::random`, `Alphanumeric`) is replaced by the
  oracle sequences `choices` and `letters`. The model does not require the letters to
  be alphanumeric, and it says nothing about probabilistic termination.
- The text of the error messages: each message is a constructor of `ParseError`.
  The `{:?}` renderings of tokens are the tokens themselves.
- The `Parser::from` test helper, since it only builds a parser from a pattern.
- The unreachable `panic!` arm at the end of `gen_fragment`: the match over the six
  kinds of node is exhaustive.
- The cost of `Vec::remove(0)` and the duplicate ids in the worklists. The model
  keeps the duplicates; the verdict depends only on the set of visited states.
- `NfaEngine.Nfa.Accepts`: requires `Ranked`: every link set, and a rank that decreases
  along every Start and Split link. The source loops forever when the expansion reaches
  a cycle made only of such links (`(a*)*` on `"a"`). The precondition is on the whole
  arena, so it also excludes calls on such arenas that do terminate: `(a*)*` on `""`
  answers false, and `b(a*)*` on `"c"` answers false without reaching the cycle. It
  also requires a start state that is not a Split. Every NFA that `from` and `+` build
  starts with a Start state.
- `NfaEngine.Nfa.ParseState`: requires `Ranked` as well: every link set, and a rank
  that decreases along every Start and Split link, although `parse_state` follows only
  Split links. The source recurses forever when the expansion reaches a Split-only
  cycle (`(a*)*`). The precondition also excludes calls on such arenas whose expansion
  never reaches the cycle, and arenas with unset links that the expansion never looks at.
- `NfaEngine.Nfa.Gen`: requires every link set and every Start and Match link to
  point forward. This holds for every NFA that `from` and `+` build, and it makes
  the walk terminate for finite draws.
- `NfaEngine.Nfa.Add`: requires every link of the right NFA to be set. The source
  unwraps them and panics otherwise.
- `NfaBuildExamples.FromDots` and the other `From*` lemmas compute the arena
  `from` builds for each test pattern. The test patterns other than `.....`,
  `hel+o`, `ab`, `cd`, `a`, `a*`, `b*` and `(a*)*` are not worked out.
