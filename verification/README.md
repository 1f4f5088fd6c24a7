# T-OS in Dafny

A model of the parts of T-OS that are hardest to get right, with proofs of what they
guarantee: the lockstep network protocol of its DOOM port, the TGC language (lexer,
interpreter) and the TGO editor, the thread scheduler and mutexes of the kernel, and from
DOOM the flood of sounds, the screen melt, the automap's line clipping and drawing, the stair
builder and the demo format; and strtok and its relatives from the C library.

Each part follows one pattern. What the C code computes is written as functions on values or
as predicates; the code itself is a class or a method that updates fields, sequences and
arrays step by step, proved to do what the functions say; and what the code is for is
proved about the functions, for all inputs or all runs.

| files | part |
|---|---|
| `lockstep_node`, `lockstep_system` | one node's operations; a network of n nodes that loses, duplicates and reorders packets, and its runs |
| `lockstep_proofs`, `lockstep_invariant`, `lockstep_theorems` | tic arithmetic and rings; the invariant; agreement, flow control, desync detection, loss recovery, when a node halts |
| `lockstep_witnesses` | three runs: a late request, a packet a turn late, two games that diverge |
| `lockstep_net`, `lockstep_trace` | the loops of d_net.c and g_game.c over their arrays; that they are steps of the network |
| `tgc_machine`, `tgc_language` | the evaluator over tokens; abstract syntax, rendering and big-step meaning |
| `tgc_expressions`, `tgc_statements`, `tgc_simulation`, `tgc_theorems`, `tgc_converse` | the simulation between the two, in both directions |
| `tgc_bare_else`, `tgc_calls` | `else` without a brace; calls of C library functions |
| `tgc_interpreter` | the recursive procedures and loops of main.c |
| `tgc_lexer`, `tgc_lexing`, `tgc_pipeline` | the tokenizer, its round trip, and both together |
| `editor` | the editor |
| `kernel_spec`, `kernel_theorems`, `kernel_threads`, `kernel_witnesses` | threads, mutexes and scheduling; their runs; the linked lists; runs that go wrong |
| `sound_flood` | sounds |
| `melt_screen`, `melt_wipe`, `grid` | screen wipes |
| `automap_clip`, `automap_cover`, `automap_window`, `automap_draw`, `c_arithmetic` | automap lines: clipping, what it and the first rejection may lose, drawing |
| `stairs`, `floor_move` | stair building and moving floors |
| `demo_codec`, `demo` | demos |
| `libc_strtok`, `libc_numbers` | strtok, itoa, atoi, memmove |

Conventions of the model:

- Peers are numbered by player, and a node's own number stands for the rebound node 0.  A
  packet carries its full tic number beside the byte that is sent; only the byte is read. A
  packet may arrive any number of times, in any order, as long as its start is within 64
  tics of the receiver's maketic. ticdup is any number from 1, extratics 0 or 1. The game
  of each node is an arbitrary function of the commands executed so far; the nodes' games
  may differ. I_Error halts the node. The NetUpdate calls of TryRunTics and what they meet
  are given, among them the one behind which its 20 tics of waiting are over.
- In TGC, `char` is signed as on the x86 compilers T-OS is built with, so bytes from 128 on
  count as blanks. What the C library functions return to a program is an arbitrary function
  of name and arguments.
- Nested and repeated statements of TGC are counted by a fuel; results are about runs that
  end, and do not depend on the fuel.
- Threads and mutexes live in tables, and pointers to them are table positions. Entering and
  leaving a spinlock is one step with what it guards.
- The automap's window, the sound flood's map and the stair builder's sectors are given; the
  answers of P_ChangeSector, the random numbers of the melt and the clock come from outside.

Where the code does not do what its comments or tests suggest, the model follows the code:

- NetUpdate ends in I_Error when it honours a request that has become 13 tics old, such as a
  duplicate of one already answered (`LockstepTheorems.SendErrorExact`, with the run
  `LockstepWitnesses.LateRequestHalts`).
- An `else` behind a taken branch makes TGC skip to the end of the enclosing block
  (`TgcTheorems.IfElseExact`, with the program `TgcTheorems.ElseLosesTheRest`); an `else`
  without a brace is executed even then (`TgcBareElse.BareElseTaken`).
- mutex_lock can return to a caller that is blocked and does not hold the mutex
  (`KernelTheorems.LockOutcome`, with the runs `KernelWitnesses.LockReturnsToItsOwner` and
  `KernelWitnesses.LockReturnsWithoutTheMutex`), and a later waiter overwrites an inherited
  priority that was better (`KernelTheorems.InheritanceExact`, with the run
  `KernelWitnesses.WorseWaiterOverwrites`).
- wipe_ScreenWipe reports a melt as complete when it is called with no tics
  (`MeltWipe.Wipe.ScreenWipe`).
- The automap can drop a line in the last column of its frame (`AutomapWindow.RejectionExact`,
  with the line `AutomapWindow.LastColumnDropped`).
- A floor that is blocked in its last tic stays short of its destination
  (`FloorMove.ArrivesExactly`, with the floor `FloorMove.StopsShort`), and a stair can be more
  than one step above the one before (`Stairs.StepExact`, with the level `Stairs.TallStair`).
- The backspace key at the start of a text stores a backspace character
  (`Editor.BackspaceExact`).
- A demo recording ends at a command whose forwardmove is -128
  (`Demo.Tape.WriteDemoTiccmd`).

## Model

| member | source | states |
|---|---|---|
| `LockstepProofs.ExpandExact` | T-OS/apps/src/doom/d_net.c:120-135 | Within 64 tics of the receiver's maketic, the low byte of a tic number expands to the tic itself. |
| `LockstepProofs.ExpandRadius` | T-OS/apps/src/doom/d_net.c:120-135 | 64 is the largest radius for which that holds at every maketic: it holds for radius r if and only if r <= 64. |
| `LockstepProofs.ExpandRequest` | T-OS/apps/src/doom/d_net.c:303-312 | A resend position up to 69 tics back expands to itself or to the tic 256 later, never to anything else. |
| `LockstepProofs.StoreKeeps` | T-OS/apps/src/doom/d_net.c:341-357 | Storing a packet leaves every ring slot alone that belongs to another player or to another of the last twelve tics. |
| `LockstepProofs.StoreHolds` | T-OS/apps/src/doom/d_net.c:341-357 | After storing, each of the twelve slots of the sender holds the sender's own command for its tic. |
| `LockstepProofs.BuildKeeps` | T-OS/apps/src/doom/d_net.c:398-410 | Building never runs more than five tics ahead of the game and keeps the last twelve own commands in the local ring. |
| `LockstepProofs.PacketCarriesMade` | T-OS/apps/src/doom/d_net.c:417-430 | A packet made from a resend position at most twelve back carries the sender's commands from there to its maketic. |
| `LockstepInvariant.FlowControl` | T-OS/apps/src/doom/d_net.c:399-410 | In a state that satisfies the invariant, no node is more than 5 tics ahead of another's maketic or 10 ahead of another's game tic. |
| `LockstepInvariant.InvDeliver` | T-OS/apps/src/doom/d_net.c:261-358 | Delivering any packet, lost neighbours, duplicates and reordering included, keeps the invariant. |
| `LockstepInvariant.InvUpdate` | T-OS/apps/src/doom/d_net.c:368-447 | A NetUpdate, with the rebound copy of the own packet, keeps the invariant. |
| `LockstepInvariant.InvRun` | T-OS/apps/src/doom/d_net.c:736-767 | Running a network tic keeps the invariant and raises no consistency error. |
| `LockstepInvariant.InvAlways` | T-OS/apps/src/doom/d_net.c:636-767 | The invariant holds in every state of every run. |
| `LockstepTheorems.LockstepAgreement` | T-OS/apps/src/doom/g_game.c:656-664 | In every state of every run, the command any node used for player p in game tic g is the one p's node built for it; the executed histories of two nodes are prefixes of one another. |
| `LockstepTheorems.RingReadIsBuilt` | T-OS/apps/src/doom/g_game.c:656-664 | When a node is about to run a tic, the ring entry it reads for player p is p's own command for that tic. |
| `LockstepTheorems.FlowControlAlways` | T-OS/apps/src/doom/d_net.c:399-410 | Both flow-control bounds hold between any two nodes in every state of every run. |
| `LockstepTheorems.NoUnconsumedOverwrite` | T-OS/apps/src/doom/d_net.c:341-357 | No step of any run overwrites a ring slot whose command was received but not yet run. |
| `LockstepTheorems.DesyncExact` | T-OS/apps/src/doom/g_game.c:681-693 | In every run, whatever games the nodes run: running a tic later than game tic 12 ends in the consistency error if and only if for some player the value the node had twelve tics before differs from the one the player's own node had there and stamped. |
| `LockstepTheorems.NoFalseDesync` | T-OS/apps/src/doom/g_game.c:681-693 | If all nodes run games that sample the same values, the check never fires in any run. |
| `LockstepWitnesses.DivergedHalts` | T-OS/apps/src/doom/g_game.c:681-693 | Two nodes whose games differ after one tic: in the run in which every packet arrives, node 0 halts as soon as it runs tic 13. |
| `LockstepTheorems.RepeatedHarmlessly` | T-OS/apps/src/doom/d_net.c:748-762 | In every run, a game tic that repeats a network tic's command carries no chat character and no special button, and otherwise the same moves and buttons. |
| `LockstepTheorems.MadeIsSampled` | T-OS/apps/src/doom/d_net.c:398-410 | A NetUpdate adds to its player's commands the sampled controls in order, as many as can be held, each stamped with the value of twelve tics before its own. |
| `LockstepTheorems.UpdateReaches` | T-OS/apps/src/doom/d_net.c:416-442 | A NetUpdate that does not fail sends every peer exactly one packet, from the peer's resend position to the new maketic, with a request for what is missing if and only if the resend flag is set. |
| `LockstepTheorems.StampIsTwelveBack` | T-OS/apps/src/doom/g_game.c:237-254 | The value packed into the command of tic t is the one recorded at tic t-12. |
| `LockstepWitnesses.WindowIsNeeded` | T-OS/apps/src/doom/d_net.c:120-135 | Without the delivery window agreement fails: a run of 256 tics at whose end a packet of the other node's first tic is still on the wire, and would be stored as its tic 256, not yet built. |
| `LockstepTheorems.ResendHeld` | T-OS/apps/src/doom/d_net.c:303-315 | Over any stretch of a run, while the resend count is positive it falls by one per delivered packet and no request moves the resend position. |
| `LockstepTheorems.HonouredRequest` | T-OS/apps/src/doom/d_net.c:303-312 | A request delivered while the count is not positive sets the resend position to the tic asked for and the count to 10. |
| `LockstepTheorems.RequestsRecur` | T-OS/apps/src/doom/d_net.c:303-315 | After an honoured request the count is 10 less the packets delivered since, so the next request is honoured at the latest by the eleventh packet. |
| `LockstepTheorems.CurrentRequestFits` | T-OS/apps/src/doom/d_net.c:417-422 | Answering a request that is still current never needs more than 10 commands. |
| `LockstepTheorems.SendErrorExact` | T-OS/apps/src/doom/d_net.c:398-422 | NetUpdate ends in the numtics error if and only if some resend position is more than 12 tics behind, or ahead of, what maketic, the number of controls and the limit of five tics let it build. |
| `LockstepTheorems.SendErrorMeansStale` | T-OS/apps/src/doom/d_net.c:419-422 | Then some peer has, or has overtaken, what it is about to be sent again, or its request was expanded beyond everything built. |
| `LockstepTheorems.NobodyHalts` | T-OS/apps/src/doom/d_net.c:303-312 | If every request that is honoured in a run asks for no more than the last seven tics, and all nodes run the same game, no node of it ever ends in an error. |
| `LockstepWitnesses.LateRequestHalts` | T-OS/apps/src/doom/d_net.c:303-312 | A run of two nodes in which a duplicated request is honoured 13 tics late, so that the next NetUpdate ends in the numtics error whatever it builds. |
| `LockstepTheorems.DeliveryCatchesUp` | T-OS/apps/src/doom/d_net.c:341-357 | A packet that reaches beyond what is known and starts no later brings the receiver to its end and clears the resend flag. |
| `LockstepTheorems.GapSetsFlag` | T-OS/apps/src/doom/d_net.c:329-338 | A packet that starts beyond what is known sets the resend flag and changes no stream. |
| `LockstepTheorems.LossRecovery` | T-OS/apps/src/doom/d_net.c:303-338 | Whatever happens in between: once a request was honoured, the next send made for it starts where it asked and ends at the sender's maketic, and its delivery brings the asker up to there and clears its flag. |
| `LockstepNet.NetNode.HandlePacket` | T-OS/apps/src/doom/d_net.c:269-358 | The packet loop body over the global arrays does what the specification of receiving says. |
| `LockstepNet.NetNode.BuildTics` | T-OS/apps/src/doom/d_net.c:398-410 | The building loop over the local ring does what the specification of building says. |
| `LockstepNet.NetNode.SendPackets` | T-OS/apps/src/doom/d_net.c:416-442 | The sending loop produces the specified packets and resend positions, or the numtics error. |
| `LockstepNet.NetNode.GameTic` | T-OS/apps/src/doom/g_game.c:656-694 | The consumer loop reads, checks and records for every player, in that order. |
| `LockstepNet.NetNode.TryRunTics` | T-OS/apps/src/doom/d_net.c:652-767 | With A tics there after the first NetUpdate it wants A if realtics >= A, realtics if that is one less, else realtics + 1, and at least 1; it waits just as long as they have not arrived from everybody, not at all if A >= 1, and gives up if and only if every NetUpdate of the wait has been used and they still have not; otherwise it runs exactly the tics wanted, or the first error ends it. What it has done is, in order, all the controls and packets of the NetUpdates it made and the tics it reports. |
| `LockstepTrace.TraceInSystem` | T-OS/apps/src/doom/d_net.c:652-767 | Such a sequence of steps of one node, where the system allows them, is a stretch of a run of the system, and leaves the node as the call does. |
| `TgcLexer.Lexer.LexAll` | T-OS/main.c:335-458 | The tokenizer ends on every text and yields the specified token list. |
| `TgcLexer.Lexer.ReadString` | T-OS/main.c:394-415 | The literal loop with its 255-character buffer reads what the specification reads. |
| `TgcLexing.LexRoundTrip` | T-OS/main.c:335-458 | For every spelling of a token list, with any white space and comments before and between the tokens as long as each token ends where it should, lexing gives the list back. |
| `TgcLexing.SpacingIrrelevant` | T-OS/main.c:337-357 | Two texts of the same tokens lex alike, whatever else stands between them besides a blank after each. |
| `TgcLexing.WordReads` | T-OS/main.c:363-393 | A word is read to its end and cut to 31 characters before it is compared with the keywords. |
| `TgcLexing.StringReads` | T-OS/main.c:394-415 | A literal is read back as a whole if and only if it fits: at most 255 characters, the last of 255 not a line feed. |
| `TgcLexing.CommentAfterDivision` | T-OS/main.c:343-353 | A block comment directly behind a division sign swallows the rest of the line. |
| `TgcPipeline.PlainRoundTrip` | T-OS/main.c:335-458 | Lexing the space-separated rendering of a token list gives the list back. |
| `TgcPipeline.TextRunsCorrectly` | T-OS/main.c:846-868 | From text to result: however a program is laid out, lexing and running it gives what its big-step execution gives: variables, output, return value. |
| `TgcCalls.CallEvaluates` | T-OS/main.c:526-555 | A call of a C library function passes it the values of up to eight arguments in their order, evaluated from left to right, and ends behind its closing parenthesis with the answer. |
| `TgcLanguage.ApplyExact` | T-OS/main.c:593-639 | A comparison is 1 if it holds and 0 if not; a quotient is rounded toward zero; a division by zero leaves the dividend. |
| `TgcExpressions.ExprEvaluates` | T-OS/main.c:526-639 | Parsing and evaluating the rendering of an expression tree ends behind it with the tree's value: precedence, left association, x/0 = x with a report. |
| `TgcStatements.StmtMono` | T-OS/main.c:656-809 | A statement that ends within some number of nested and repeated calls ends alike within any larger number. |
| `TgcStatements.CmdPasses` | T-OS/main.c:641-655 | Skipping by counting braces passes exactly over any rendered statement. |
| `TgcStatements.SkipPastBody` | T-OS/main.c:641-655 | Skipping an untaken body ends directly behind its closing brace. |
| `TgcSimulation.SimpleHere` | T-OS/main.c:657-712 | A declaration, assignment, print, return or text statement ends directly behind itself with the memory of its meaning. |
| `TgcSimulation.WhileTurn` | T-OS/main.c:753-772 | One turn of a while statement whose condition holds executes the body and leaves t_pos at the while token. |
| `TgcSimulation.WhileRuns` | T-OS/main.c:753-772 | A while statement that terminates is left directly behind itself with the memory of its meaning. |
| `TgcSimulation.CmdRuns` | T-OS/main.c:656-809 | Any statement of the language, executed from its rendering, ends behind it with the memory, output and return flag of its big-step meaning. |
| `TgcTheorems.InterpreterCorrect` | T-OS/main.c:846-868 | If a program's big-step execution terminates, the driver on its tokens ends with the same variables (0 if never assigned), output and return value, and no amount of further calls changes that. |
| `TgcTheorems.InterpreterCorrectWithoutElse` | T-OS/main.c:846-868 | So it is for every program without else whose big-step execution terminates. |
| `TgcTheorems.EntryExact` | T-OS/main.c:847-863 | The driver starts at the first token if and only if nothing is called main. |
| `TgcTheorems.ScriptCorrect` | T-OS/main.c:847-868 | A file without main is run from its beginning with the meaning of its statements. |
| `TgcConverse.InterpreterComplete` | T-OS/main.c:846-868 | If the driver ends on a program in which no if-else goes through its first branch, the program's big-step execution terminates within as many turns. |
| `TgcConverse.TerminationExact` | T-OS/main.c:846-868 | On a program without else the driver ends if and only if the program's big-step execution does. |
| `TgcTheorems.IfElseExact` | T-OS/main.c:713-752 | An if-else that goes through is left at its end if and only if its condition was false or nothing follows it. |
| `TgcTheorems.TakenElse` | T-OS/main.c:729-737 | With the first branch taken, the skip of the else runs on to the end of the enclosing block. |
| `TgcTheorems.TakenElseEndsMain` | T-OS/main.c:729-737 | In main, after any statements that run through, nothing behind an if-else whose first branch goes through is executed. |
| `TgcBareElse.BareElseTaken` | T-OS/main.c:729-737 | With no brace behind else, as in else if: when the first branch goes through, the statement behind the else is executed as well, and a return in it sets the exit code without ending the run. |
| `TgcBareElse.BareElseUntaken` | T-OS/main.c:738-752 | When the condition fails, the statements from the else to the end of the enclosing block are executed as the second branch, and that block's closing brace is consumed. |
| `TgcTheorems.ElseLosesTheRest` | T-OS/main.c:733-734 | A concrete program that should print 7 and prints nothing. |
| `TgcInterpreter.Tgc.Variable` | T-OS/main.c:325-333 | The search loop finds the first variable of that name or appends it with value 0. |
| `TgcInterpreter.Tgc.Expr` | T-OS/main.c:624-639 | The recursive procedures over t_pos compute what the evaluation functions say. |
| `TgcInterpreter.Tgc.Skip` | T-OS/main.c:641-655 | The brace-counting loop stops where the specification stops. |
| `TgcInterpreter.Tgc.Stmt` | T-OS/main.c:656-809 | The statement procedure over t_pos, vars and *rv does what the statement function says. |
| `TgcInterpreter.Tgc.Execute` | T-OS/main.c:846-868 | Finding main and the driver loop do what the run function says. |
| `Editor.PressAllValid` | T-OS/main.c:191-249 | Over every key sequence the cursor stays within the text and the text within 4095 bytes. |
| `Editor.InsertBackspace` | T-OS/main.c:234-247 | Inserting a character and taking it back is the identity. |
| `Editor.BackspaceExact` | T-OS/main.c:234-247 | The backspace key removes a character if and only if the cursor is not at the start; there it is stored as a character. |
| `Editor.LeftRight` | T-OS/main.c:201-204 | Left moves the cursor back by one character unless it is at the start; Left and Right undo each other exactly away from the start and the end. |
| `Editor.TypedExact` | T-OS/main.c:239-246 | A typed character stands where the cursor was, with the cursor behind it and the rest as before; Enter leaves a line feed. |
| `Editor.EnterLands` | T-OS/main.c:239-246 | Enter puts the cursor at the beginning of the next row. |
| `Editor.UpLands` | T-OS/main.c:205-217 | The Up key lands in the line above at the smaller of the column and that line's length, and does nothing in the first line. |
| `Editor.DownLands` | T-OS/main.c:218-233 | The Down key lands in the line below in the same way, and does nothing in the last line. |
| `Editor.UpDown` | T-OS/main.c:205-233 | Up then Down returns to the start if and only if the upper line is at least as long as the column. |
| `Editor.DownUp` | T-OS/main.c:205-233 | Down then Up returns to the start if and only if the lower line is at least as long as the column. |
| `Editor.Tgo.BackspaceKey` | T-OS/main.c:234-238 | Shifting the buffer down removes exactly the character before the cursor. |
| `Editor.Tgo.InsertKey` | T-OS/main.c:239-246 | Shifting the buffer up inserts exactly the character at the cursor. |
| `Editor.Tgo.Edit` | T-OS/main.c:191-249 | The key loop over the buffer refines the text-and-cursor editor up to the escape key. |
| `SoundFlood.Level.RecursiveSound` | T-OS/apps/src/doom/p_enemy.c:106-151 | The recursive flood ends; every label it lowers was reached by a walk of the right cost and is carried on through all its lines, everything else is untouched, and each call that does not return at once uses up label slack. |
| `SoundFlood.PassesExact` | T-OS/apps/src/doom/p_maputl.c:301-331 | Sound passes a line if and only if it is two-sided and some height z has floor <= z < ceiling in the sectors of both sides; it comes out on the other side. |
| `SoundFlood.FreeExact` | T-OS/apps/src/doom/p_enemy.c:126-150 | A sector is reached freely if and only if a path of sectors leads there, each joined to the next by such a line without ML_SOUNDBLOCK. |
| `SoundFlood.OneBlockExact` | T-OS/apps/src/doom/p_enemy.c:126-150 | It is reached across exactly one blocking line if and only if a free path leads to such a line with ML_SOUNDBLOCK and another one on from behind it. |
| `SoundFlood.ClosedIsSilent` | T-OS/apps/src/doom/p_enemy.c:133-134 | No sound gets from outside into a sector whose floor is not below its ceiling. |
| `SoundFlood.Level.NoiseAlert` | T-OS/apps/src/doom/p_enemy.c:159-167 | Afterwards a sector is labelled 1 if and only if an open walk without sound-blocking lines reaches it, 2 if and only if the best crosses exactly one, and is otherwise untouched; the target is set on exactly these; every other sector without room between floor and ceiling is untouched; at most two floods per sector. |
| `SoundFlood.WalkCovered` | T-OS/apps/src/doom/p_enemy.c:106-151 | If every labelled sector is carried on, any walk of cost at most one leads to labels no larger than its cost allows. |
| `SoundFlood.Exact` | T-OS/apps/src/doom/p_enemy.c:159-167 | Reached and carried-on labels are exactly the 0/1-weighted distances. |
| `SoundFlood.FloodingOn` | T-OS/apps/src/doom/p_enemy.c:126-150 | One more line, flooded through, keeps what the loop over a sector's lines maintains. |
| `MeltScreen.Transpose` | T-OS/apps/src/doom/f_wipe.c:51-70 | The in-place transposition puts pixel (r, c) where column-major order wants it. |
| `MeltScreen.TransposedTwice` | T-OS/apps/src/doom/f_wipe.c:51-70 | Transposing there and back is the identity. |
| `MeltWipe.Wipe.CopyStrip` | T-OS/apps/src/doom/f_wipe.c:200-216 | The raw pointer loop changes exactly n pixels of one column. |
| `MeltWipe.Wipe.MeltColumn` | T-OS/apps/src/doom/f_wipe.c:190-219 | One tic of a column keeps it showing the first y rows of the end screen above the start screen, and advances y. |
| `MeltWipe.Wipe.DoMelt` | T-OS/apps/src/doom/f_wipe.c:172-224 | After any number of tics every column shows what its y says; the call reports completion if and only if it had no tics or every column was already down. |
| `MeltWipe.Wipe.InitMelt` | T-OS/apps/src/doom/f_wipe.c:141-169 | The melt begins with the start screen shown and each column at a random wait of at most 15 tics. |
| `MeltWipe.PositionExact` | T-OS/apps/src/doom/f_wipe.c:188-210 | Where a column is n tics after it was -y rows above the screen: n + y while it waits, then 2^m - 1 rows for the first five of its m tics down, 8 more in each tic from then on, and never beyond the height. |
| `MeltWipe.DownExact` | T-OS/apps/src/doom/f_wipe.c:188-210 | On a screen of at least 31 rows a column is down if and only if its wait, five tics, and one for every eight of the other rows have passed. |
| `MeltWipe.StartYExact` | T-OS/apps/src/doom/f_wipe.c:160-167 | The random step is one row up, none, or one row down, cut at 0 and -15. |
| `MeltWipe.Neighbours` | T-OS/apps/src/doom/f_wipe.c:160-167 | Neighbouring columns start within one row of each other. |
| `MeltWipe.DownIn` | T-OS/apps/src/doom/f_wipe.c:188-220 | Every column is down after 15 + height tics, and already after 20 + (height - 31)/8. |
| `MeltWipe.AllDownShows` | T-OS/apps/src/doom/f_wipe.c:188-220 | When every column is down the screen is the end screen. |
| `MeltWipe.Wipe.DoColorXForm` | T-OS/apps/src/doom/f_wipe.c:83-126 | Each byte moves towards its end value by the number of tics; completion is reported if and only if nothing differed. |
| `MeltWipe.TowardExact` | T-OS/apps/src/doom/f_wipe.c:83-126 | A byte comes closer to its end value by exactly the number of tics, or reaches it. |
| `MeltWipe.TowardSum` | T-OS/apps/src/doom/f_wipe.c:83-126 | Fading in two calls is fading once by the sum, and 255 tics always suffice. |
| `MeltWipe.Wipe.ScreenWipe` | T-OS/apps/src/doom/f_wipe.c:262-302 | Across calls: the first begins the wipe on the two screens, completion with any tics means the screen is the end screen, and a melt call without tics reports completion over an unchanged screen. |
| `MeltWipe.Wipe.WipeIn` | T-OS/apps/src/doom/d_main.c:329-344 | The wipe loop of the main program ends with the end screen after no more calls than the columns or pixel values need. |
| `AutomapClip.ClipInBox` | T-OS/apps/src/doom/am_map.c:925-952 | No clip divides by zero, and its point stays in the bounding box of the line despite truncation. |
| `AutomapClip.ClipNear` | T-OS/apps/src/doom/am_map.c:925-952 | A clip moves an end off the original line by at most one more pixel. |
| `AutomapClip.ClippedFaithful` | T-OS/apps/src/doom/am_map.c:915-969 | What the clipping loop shows lies in the frame and in the line's bounding box, ends where the line ends or at the frame's edge, and is off the line by at most a pixel per clip. |
| `AutomapClip.FourBits` | T-OS/apps/src/doom/am_map.c:868-872 | The outcodes of a line have at most four bits in all. |
| `AutomapClip.ClipEnd` | T-OS/apps/src/doom/am_map.c:918-966 | Each turn of the loop lowers the number of outcode bits or ends in a rejection. |
| `AutomapDraw.Automap.ClipMline` | T-OS/apps/src/doom/am_map.c:847-970 | The method with its rewritten end points computes the specified result in at most four turns of its loop. |
| `AutomapDraw.ClippedNear` | T-OS/apps/src/doom/am_map.c:847-970 | Whatever is shown is in the frame and within four pixels of the line. |
| `AutomapCover.ClippedCovers` | T-OS/apps/src/doom/am_map.c:915-969 | Any point of the ideal line inside the frame is within a pixel per clip of what is shown, or that close to the frame's border; so a line rejected after some clips had nothing further inside. |
| `AutomapCover.ClippedComplete` | T-OS/apps/src/doom/am_map.c:902-970 | For a whole line in frame coordinates: every visible point is within four pixels of what is shown or of the border. |
| `AutomapWindow.RejectionExact` | T-OS/apps/src/doom/am_map.c:874-902 | The first rejection, on map coordinates, drops only lines that lie beside the frame if and only if the window scales to beyond the frame's right and upper edge. |
| `AutomapWindow.RejectedAtBorder` | T-OS/apps/src/doom/am_map.c:874-902 | Otherwise a visible point of a line it drops is no further from the frame's border than the window falls short of it. |
| `AutomapWindow.MapComplete` | T-OS/apps/src/doom/am_map.c:327-338 | With the window that AM_activateNewScale sets, every visible point of a line of the map is within four pixels of what AM_drawMline draws or of the border. |
| `AutomapWindow.LastColumnDropped` | T-OS/apps/src/doom/am_map.c:896-902 | At scale 14000 a line in the last column of the frame is dropped. |
| `AutomapDraw.DotEnds` | T-OS/apps/src/doom/am_map.c:1006-1048 | The dots begin at one end of the line and finish at the other. |
| `AutomapDraw.DotNear` | T-OS/apps/src/doom/am_map.c:1006-1048 | Every dot is within half a pixel of the ideal line, in all octants. |
| `AutomapDraw.DotsConnected` | T-OS/apps/src/doom/am_map.c:1006-1048 | Consecutive dots touch. |
| `AutomapDraw.DotsDistinct` | T-OS/apps/src/doom/am_map.c:1006-1048 | No dot is drawn twice, so there are exactly max(abs(dx),abs(dy)) + 1. |
| `AutomapDraw.Automap.DrawFline` | T-OS/apps/src/doom/am_map.c:978-1049 | The decision-variable loops colour exactly the frame buffer cells of the line's dots, all in bounds, and change nothing else. |
| `AutomapDraw.Automap.DrawMline` | T-OS/apps/src/doom/am_map.c:1056-1064 | Clipping and drawing together colour exactly the dots of the visible part, or nothing. |
| `KernelTheorems.InvNext` | T-OS/t_sync.c:32-78 | Every step keeps: a running thread is the current one, wait queues hold exactly the blocked threads, each once, and only a held mutex has waiters. |
| `KernelTheorems.InvStart` | T-OS/t_sync.c:32-78 | This holds after every run of threads, mutexes and timer ticks. |
| `KernelTheorems.ContendExact` | T-OS/t_sync.c:46-54 | Queueing for a held mutex keeps the invariant if and only if the caller is not already blocked, which is all that the runs ask of it. |
| `KernelTheorems.FirstComeFirstServed` | T-OS/t_sync.c:32-78 | In every run the threads that asked for a mutex, in order, are those that were given it, in order, followed by the queue: no overtaking. |
| `KernelTheorems.OwnerIsLastGrant` | T-OS/t_sync.c:32-78 | Whoever holds a mutex is the last it was given to. |
| `KernelTheorems.ScheduleSelects` | T-OS/nsas_scheduler.c:87-119 | Only a ready thread is ever switched to, and a blocked thread is never touched. |
| `KernelTheorems.ScheduleSwitches` | T-OS/nsas_scheduler.c:101-118 | With something ready the newest ready thread is current afterwards, running if it was not current before, and the running one is ready again; with nothing ready the current thread stays. |
| `KernelTheorems.NpuExact` | T-OS/nsas_scheduler.c:67-99 | Of the pending threads exactly one gets the NPU: the newest that wants the active model, or without one, once the window has passed, the newest of all; its model is then the active one, and the window starts over if it was not. Without such a thread no pending thread changes. |
| `KernelTheorems.NpuSwitches` | T-OS/nsas_scheduler.c:77-99 | As soon as nobody wants the active model and the window has passed, the newest pending thread is served and its model becomes the active one. |
| `KernelTheorems.NpuAffinity` | T-OS/nsas_scheduler.c:67-100 | The NPU changes its model only when no pending thread wants the active one and the window has passed; a thread that wants the active model is served at once. |
| `KernelTheorems.LockOutcome` | T-OS/t_sync.c:32-58 | mutex_lock returns with the mutex if it was free; otherwise the caller is queued and blocked, and it is still the current thread if and only if scheduling is locked or no other thread is ready. |
| `KernelWitnesses.LockReturnsToItsOwner` | T-OS/t_sync.c:32-58 | A run from the start in which a thread locks a mutex twice, and the second call returns to it blocked and queued behind itself. |
| `KernelWitnesses.LockReturnsWithoutTheMutex` | T-OS/t_sync.c:56-58 | A run in which mutex_lock returns to a thread that is blocked and does not hold the mutex. |
| `KernelWitnesses.BlockedCallerBreaks` | T-OS/t_sync.c:46-54 | From there, another mutex_lock by the blocked caller would break the invariant. |
| `KernelTheorems.InheritanceExact` | T-OS/t_sync.c:41-44 | The owner goes on at the best waiting priority if and only if the new waiter is no better than the owner, none was inherited, or it is no worse than what was. |
| `KernelWitnesses.WorseWaiterOverwrites` | T-OS/t_sync.c:41-44 | A run in which waiters of priority 5 and then 8 leave the owner, of priority 10, at 8. |
| `KernelThreads.Kernel.MutexLock` | T-OS/t_sync.c:32-58 | Called by the current thread in any state, the linked queue and the fields of mutex and thread follow the specification of locking. |
| `KernelThreads.Kernel.MutexUnlock` | T-OS/t_sync.c:60-78 | The linked queue and the fields of mutex and thread follow the specification of unlocking. |
| `KernelThreads.Kernel.NsasSchedule` | T-OS/nsas_scheduler.c:87-119 | The scheduler over the linked run queue follows its specification. |
| `KernelThreads.Kernel.SelectNextNpuThread` | T-OS/nsas_scheduler.c:67-85 | The two walks along the run queue find the thread that is specified. |
| `KernelThreads.Kernel.CreateThread` | T-OS/nsas_scheduler.c:26-52 | A new thread goes to the head of the run queue, ready and with priority 10. |
| `KernelThreads.Relinked` | T-OS/t_sync.c:46-54 | Linking a thread in behind the last waiter leaves the lists of all mutexes intact. |
| `Stairs.Level.FindSectorFromLineTag` | T-OS/apps/src/doom/p_spec.c:432-445 | The next sector with the tag, or -1. |
| `Stairs.Level.BuildStairs` | T-OS/apps/src/doom/p_floor.c:453-553 | Ends on every sector graph; every mover it makes starts a flight at the next free tagged sector or follows the one before through the first line to a free sector, everything else is untouched, and nothing that could start or go on is left. |
| `Stairs.NeverReplaced` | T-OS/apps/src/doom/p_floor.c:473-553 | No sector gets a second mover. |
| `Stairs.FlightOf` | T-OS/apps/src/doom/p_floor.c:473-553 | Every stair belongs to a flight of one floor texture that starts one step above its own floor, and is higher than the one before by a positive number of steps. |
| `Stairs.StepExact` | T-OS/apps/src/doom/p_floor.c:528-534 | A stair is exactly one step above the one before if and only if no matching line to a busy sector was passed. |
| `Stairs.FirstStairRises` | T-OS/apps/src/doom/p_floor.c:489-500 | With nothing in the way the first stair of a flight rises by 8 units in 32 tics, or by 16 units in 4, and its mover is gone in the next. |
| `Stairs.BuildUnique` | T-OS/apps/src/doom/p_floor.c:453-553 | What is stated of EV_BuildStairs determines its result: any two ways to build all stairs are the same. |
| `Stairs.TallStair` | T-OS/apps/src/doom/p_floor.c:528-534 | On a level of three sectors, one of them busy, EV_BuildStairs makes a stair two steps above the one before. |
| `FloorMove.MoveLaw` | T-OS/apps/src/doom/p_floor.c:49-203 | A plane never passes its destination; pastdest is returned exactly if the step would lead past it; with nothing in the way the distance shrinks by the speed, and with something in the way the plane stays, unless it crushes or is a rising ceiling. |
| `FloorMove.Sector.MovePlane` | T-OS/apps/src/doom/p_floor.c:49-203 | The nested switches move floor and ceiling, up and down, as specified, and nothing else. |
| `FloorMove.Sector.RunFloor` | T-OS/apps/src/doom/p_floor.c:209-254 | Tic after tic the thinker follows its specification until it removes itself. |
| `FloorMove.NeverPast` | T-OS/apps/src/doom/p_floor.c:49-203 | A floor never passes its destination, whatever gets in its way. |
| `FloorMove.ArrivesExactly` | T-OS/apps/src/doom/p_floor.c:49-254 | The mover removes itself in the first tic before which the floor could make all its whole steps, and the floor is then at its destination if and only if nothing is in the way in that tic or the speed divides the distance. |
| `FloorMove.StopsShort` | T-OS/apps/src/doom/p_floor.c:49-254 | turboLower by 10 units, blocked in its third tic, leaves the floor 2 units short for good. |
| `FloorMove.ArrivesInTime` | T-OS/apps/src/doom/p_floor.c:49-254 | Unhindered it arrives after as many tics as the distance holds steps, and one more. |
| `DemoCodec.QuantiseIdempotent` | T-OS/apps/src/doom/g_game.c:1501-1512 | Quantising an angle again changes nothing. |
| `DemoCodec.QuantiseNearest` | T-OS/apps/src/doom/g_game.c:1501-1512 | The quantised angle is within 128 units of the angle, around the circle. |
| `DemoCodec.CmdRoundTrip` | T-OS/apps/src/doom/g_game.c:1491-1523 | Reading what was written gives the command with its angle quantised; its first byte is the end marker if and only if forwardmove is -128. |
| `DemoCodec.ByteExact` | T-OS/apps/src/doom/g_game.c:1506-1512 | Byte 0 of a command tells its forward move, byte 1 its side move, byte 2 its angle as far as that is kept, byte 3 its buttons. |
| `DemoCodec.BytesOf` | T-OS/apps/src/doom/g_game.c:1506-1512 | The four bytes of a concrete command. |
| `DemoCodec.TapeRoundTrip` | T-OS/apps/src/doom/g_game.c:1491-1523 | A tape plays back every command put on it if and only if none has a forwardmove of -128. |
| `Demo.HeaderExact` | T-OS/apps/src/doom/g_game.c:1549-1567 | Which byte of the header tells which setting, behind the version. |
| `Demo.HeaderOf` | T-OS/apps/src/doom/g_game.c:1549-1567 | The thirteen header bytes of a concrete session. |
| `Demo.Tape.BeginRecording` | T-OS/apps/src/doom/g_game.c:1549-1567 | The header is laid down within the buffer. |
| `Demo.Tape.WriteDemoTiccmd` | T-OS/apps/src/doom/g_game.c:1506-1523 | Goes on with the command a player of the demo will see, or ends the recording exactly on request, for want of room, or at a forwardmove of -128; writes stay inside the buffer. |
| `Demo.Tape.DoPlayDemo` | T-OS/apps/src/doom/g_game.c:1582-1619 | The settings of the recording come back. |
| `Demo.Tape.ReadDemoTiccmd` | T-OS/apps/src/doom/g_game.c:1491-1503 | Reads the next command of the tape, or ends playback at the marker. |
| `Demo.RecordAndReplay` | T-OS/apps/src/doom/g_game.c:658-669 | Recording a session and playing the file back gives, in every tic and for every player in the game, exactly the moves the recording session went on with; recording stops early only on request, at a forwardmove of -128, or when the buffer is too small. |
| `LibcStrtok.Strings.Strspn` | T-OS/libc.c:313-322 | The length of the longest prefix made of the accepted characters. |
| `LibcStrtok.Strings.Strcspn` | T-OS/libc.c:304-312 | The length of the longest prefix without rejected characters. |
| `LibcStrtok.Strings.Strtok` | T-OS/libc.c:342 | One call: what it passes, the token it returns, the one byte it overwrites, where the next call starts, and NULL for good once nothing is left. |
| `LibcStrtok.Strings.AllTokens` | T-OS/libc.c:342 | A whole call sequence returns exactly the longest delimiter-free stretches of the original string, in order, and changes only the delimiter that ends each. |
| `LibcStrtok.NextRun` | T-OS/libc.c:342 | The stretch found next is the next longest one, and none is passed over. |
| `LibcNumbers.Itoa` | T-OS/libc.c:55-73 | The digit loop and the reversal in place leave the numeral of the number, ended by NUL. |
| `LibcNumbers.NumberRoundTrip` | T-OS/libc.c:173-180 | Reading back what was written gives the number, whatever white space precedes and whatever but a digit follows it. |
| `LibcNumbers.Atoi` | T-OS/libc.c:173-180 | The loops compute the number after white space and a sign. |
| `LibcNumbers.Memmove` | T-OS/libc.c:251-256 | The copied area holds what the source area held before, also when they overlap; nothing else changes. |

## Left out

- LockstepTheorems.LockstepAgreement: does not model drones, the setup, exit and kill packets, checksums, or players who leave; every node takes part from the first tic.
- LockstepNet.NetNode.TryRunTics: what a desync or a numtics error leaves in the variables is not stated, and the adjustment of gametime and skiptics is left out.
- LockstepTheorems.LossRecovery: says what happens once packets are delivered, not that a lossy network ever delivers one.
- LockstepTheorems.RequestsRecur: counts delivered packets; the pacing of NetUpdate by gametime and skiptics is left open, and a NetUpdate builds any number of tics.
- TgcTheorems.InterpreterCorrect: integers do not wrap at 32 bits; the limits of 2048 tokens and 128 variables are not modelled, and calls of C library functions, whose effects stay outside, do not occur in the programs; `TgcCalls.CallEvaluates` is about one call by itself.
- TgcCalls.CallEvaluates: arguments that begin with a parenthesis, and calls within arguments, are not covered; commas are dropped by the tokenizer.
- TgcInterpreter.Tgc.Stmt: the method speaks of statements that end; `TgcConverse.TerminationExact` says which programs do.
- TgcInterpreter.Tgc.Execute: speaks of the runs that end, as a program that loops has no result to compare; `TgcConverse.InterpreterComplete` and `TgcConverse.TerminationExact` say when a run ends. Print statements record the text or number printed, not the cut to 254 characters or the carriage returns.
- TgcLexing.LexRoundTrip: number literals are unbounded integers.
- SoundFlood.Level.NoiseAlert: validcount does not wrap, and waking the monsters is not modelled.
- MeltWipe.Wipe.ScreenWipe: nothing else draws between two calls; the menu that D_Display may draw on top is not modelled.
- AutomapDraw.Automap.ClipMline: fixed-point products and differences do not overflow.
- AutomapWindow.MapComplete: the quotient scale_ftom is no smaller than the exact one rounded down, which the floating-point FixedDiv guarantees where it does not saturate.
- KernelTheorems.FirstComeFirstServed: says nothing about how long a thread waits; picking the first ready thread does not promise fairness.
- KernelTheorems.InvStart: in the runs mutex_lock is called once a thread is current, whatever its state, but not by a blocked thread for a mutex that is held; `KernelTheorems.ContendExact` says that this is exactly what the queues need.
- TgcBareElse.BareElseTaken: a while statement directly behind such an else, of which one turn is executed before the loop over statements meets it again, is not covered.
- KernelTheorems.InvNext: one processor; two processors inside the scheduler at once, processes, and contexts are not modelled.
- Stairs.Level.BuildStairs: a flight can carry the search past tagged sectors, which then get no stairs; the model says which sectors the search starts from, not that every tagged sector does.
- FloorMove.Sector.MoveFloor: the sounds and the thinker list are not modelled.
- Demo.RecordAndReplay: header values are bytes, and the buffer holds at least a header and one command, as it does unless -maxdemo is given 0.
- LibcStrtok.Strings.AllTokens: one set of delimiters throughout the sequence; a single call may use any.
- LibcNumbers.Itoa: does not model the 64-bit width, at which the smallest negative number has no positive counterpart.
- The EV_ functions other than stairs, the switch from sounds to awake monsters, menus, status bar, rendering, WAD and Z_ memory.
- UEFI calls, port access, sockets, sound and graphics drivers, the GUI and the file system.
- The rest of the C library: padding copies, searches, floating point, time and locale functions.
