# Models of Odin-II and ACE2

Dafny models of the algorithmic core of two programs of the repository, with proofs of what they are for.

**Odin-II** turns Verilog into a netlist. Modelled are

* the generators that replace one wide operator by a network of small cells: the restoring divider
  (`Division`, `DivisionBehaviour`, `DivisionOverflow`), chains of hard adders (`HardAdder`, `HardAdderSums`),
  soft ripple adders and subtractors (`RippleAdder`), exponentiation (`Power`), the merged write ports of
  memories (`MemoryCascade`) and the re-ordering of a memory's pins (`MemoryRelayout`). Each builder is a
  class whose methods append gates with the loops of the source; a netlist means the set of its behaviours,
  that is, of the assignments of its nets every gate agrees with, and the theorems speak of all of them. For
  each generator of gates a separate lemma shows that there is a behaviour for every input. The pad, and a pin
  nothing drives, read as 0, which is what the writer prints for them (`ODIN_II/SRC/BLIFWriter.cpp:310`).
* the transformations of syntax trees: unrolling of `for` statements (`VerilogAst` gives statements their
  reference meaning, `LoopUnroll`, `LoopUnrollProof` and `LoopUnrollInPlace` the unroller and its proof,
  `LoopUnrollLimits` what it does not preserve), and the rewriting of products, quotients and powers
  (`AstRewrites`).
* reading and printing BLIF covers (`BlifCovers`, `BlifPrinter`), the traversal that prints each node once
  (`BlifTraversal`), and the choice of the multipliers to make hard (`MixingOptimization`).

**ACE2** estimates switching activity. Modelled are the change-driven simulator (`Network` holds the
reference semantics, `Simulator`, `SimulatorCycle`, `SimulatorRun` the invariants, `ActivitySimulation` the
code, `ActivityBounds` its closing assertions), the search for latches on cycles (`LatchCycles`), the packed
cube (`Cube`), and the probabilities computed over decision diagrams (`Bdd`, `SwitchProbability`,
`SwitchEstimator`). Probabilities are real numbers.

`Bits` holds what is needed about words of bits, `Nets` the words that nets carry, `Graphs` paths in a graph,
`Wrappers` a type for what may be missing. `dafny verify dfyconfig.toml` verifies everything. Every induction
is written out: the lemmas carry `{:induction false}`, so that no hypothesis is added that the text does not
show.

## What the proofs found

Where the code does not do what one would expect for all inputs, a lemma gives an input and another one the
exact condition under which it does, in the rows named.

* **Divider.** The quotient is right if and only if D < d * 2^n, where n is the divisor's width
  (`Division.ArrayDivides`, `Division.DividerExact`). A three-bit dividend over a two-bit divisor can violate
  it: 4 / 1 is accepted and gives 3, 4 % 1 gives 1 (`DivisionBehaviour.QuotientCanOverflow`). The same
  condition makes the remainder right. From d * 2^n to d * 2^n + 2^n - d it is wrong, except at the upper end
  if d divides 2^n (`DivisionOverflow.RemainderExact`); beyond that rows drop bits that are set, and quotient
  and remainder only make up the dividend modulo 2^n, as they always do (`DivisionOverflow.ArrayCongruent`).
  Building fails unless n >= 2 and the dividend has at most 2n-1 bits.
* **Hard adder.** With a global carry in (no dummy first cell) and cells wider than one bit, the sum outputs
  are shifted by one and the top output is undriven, or an output pin is claimed twice
  (`HardAdderSums.TopOutputMissing`). With one-bit cells the ground connected last replaces the carry in of a
  node that has one (`HardAdderSums.OwnCarryLost`). The chain adds all operands and the node's own carry in if
  and only if the carry in is not global, or the cells have one bit and the node has no carry in
  (`HardAdderSums.SplitAdder`).
* **Soft adder.** A three-port node's carry in is never looked at, so its sum is right exactly when none can
  come in (`RippleAdder.CarryInExact`).
* **Power.** A constant exponent of 1 builds no multiplier and leaves the outputs undriven; 0 cannot be built
  (`Power.ConstantPowerExact`).
* **Loop unrolling, conditions.** The check also accepts comparisons such as `NUM op NUM` and `VAR op VAR`,
  which the closure reads as `VAR op NUM` or not at all. So 1 < 10 counts as false at 10
  (`LoopUnroll.ConstantConditionWrong`), and an endless loop becomes one copy
  (`LoopUnrollLimits.ConstantLoopUnrolled`). A single comparison is right in all states only if it is
  `VAR op NUM` (`LoopUnroll.LeafConditionExact`), a whole condition exactly where that reading agrees with it
  (`LoopUnroll.ConditionExact`); the theorems on unrolling speak of all such conditions.
* **Loop unrolling, steps.** The check tests its left operand twice. So it accepts steps over other variables,
  and operations the closure counts as 0 or cannot follow (`LoopUnroll.PostAcceptsOtherVariable`,
  `LoopUnroll.PostAcceptsUnknownOperation`), and rejects some over the loop variable alone; exactly which it
  accepts is stated (`LoopUnroll.PostAcceptedExact`). The closure is
  right in all states exactly as `LoopUnroll.StepExact` says; among steps made of arithmetic, when no other
  variable matters (`LoopUnroll.ArithmeticStepExact`).
* **Loop unrolling, targets.** Nothing checks that the step assigns the loop variable. Otherwise a loop that
  never ends becomes copies that do (`LoopUnrollLimits.EndlessLoopUnrolled`, `LoopUnrollLimits.TargetExact`).
* **Loop unrolling, later statements.** The copies do not set the loop variable. The meaning of the enclosing
  block is kept if and only if the statements behind the loop do not depend on it
  (`LoopUnrollLimits.LaterReadDiffers`, `LoopUnrollLimits.BlindExact`).
* **Powers in syntax trees.** A negative constant exponent yields the bare base
  (`AstRewrites.NegativePowerWrong`, `AstRewrites.ExpandPowerExact`).
* **Covers.** The test for two-input multiplexers can never succeed, so such covers stay GENERIC
  (`BlifCovers.ScanMux`). A cover without inputs is read as 1 unless the next line is empty or exactly a blank
  and a 0 (`BlifCovers.ReadCover`), so a 0 at the start of the line, or no line at all before the next command,
  makes a 1. LOGICAL_EQUAL is printed as an exclusive or and NOT_EQUAL as its negation, where the
  simulator computes the opposite (`ODIN_II/SRC/simulate_blif.cpp:893-910`); all other gates are printed right
  (`BlifPrinter.PrintedCorrect`).
* **Simulator.** Objects without a live fanin are never evaluated and stay 0, which differs from re-evaluation
  exactly when one of them computes 1 from zeros (`SimulatorRun.ConstantOneStaysZero`,
  `SimulatorRun.LiveRunIsRun`). Latches are copied one after the other, which equals a simultaneous update
  exactly when each latch resolves to its own data object (`Simulator.ShiftRegisterUnsafe`,
  `Simulator.SequentialIsSimultaneous`); otherwise the run simulated is that of the network in which each latch
  is driven by the object it resolves to (`ActivitySimulation.Simulation.AceSimActivities`). The closing
  assertions fail for an input whose signal starts with 1, never has two zeros in a row and ends with 1, in
  fewer than 100000 cycles (`ActivityBounds.SingleOneFails`, `ActivityBounds.PiAssertionsHold`), and for the
  latches such an input drives.
* **Switching probability.** The recursion multiplies by the probability of its path twice at each leaf, so
  it underestimates the chance of a switch except where path probabilities are 0 or 1
  (`SwitchProbability.SwitchBounds`): half of it is lost for a buffer whose input is 1 and changes half of the
  time (`SwitchProbability.HalfInputLosesWeight`, `SwitchEstimator.BufferLosesActivity`).
* **Memory write ports.** A single port would be passed through without its enable; the caller asks for more
  than two ports (`MemoryCascade.Netlist.SplitCascadePort`).

The selection of hard multipliers marks hardened nodes with weight -1, and would also drop a node that came in
with that weight. None does: weights start at 0 (`ODIN_II/SRC/include/odin_types.h:601`) and are assigned
depths, which start at 0 and only grow (`ODIN_II/SRC/netlist_statistic.cpp:42-44`, `:68`, `:113`, `:127`).

## Model

| member | source | states |
|---|---|---|
| `Division.ModifyDivSignalSizes` | ODIN_II/SRC/Division.cpp:117-160 | The dividend is extended with zeros to 2n-1 bits when it is shorter and left alone otherwise; the divisor keeps its width. |
| `Division.Netlist.MakeCRNode` | ODIN_II/SRC/Division.cpp:550-675 | A cell is exactly a full subtractor, a multiplexer choosing the difference or the old bit, and a buffer handing the control on. |
| `Division.Netlist.PlaceCell` | ODIN_II/SRC/Division.cpp:253-323 | The cell at row i, column j gets dividend bit 2n-1-offset+j or the partial bit of the row above, the divisor bit or its own row's borrow, a zero or the neighbour's borrow, and the control of its neighbour or of the row's inverter. |
| `Division.Netlist.BuildRow` | ODIN_II/SRC/Division.cpp:244-348 | One row adds its n or n+1 cells, its control bit 0 to the quotient and, in the last row, all partial bits but the top one to the remainder. |
| `Division.Netlist.ImplementDivision` | ODIN_II/SRC/Division.cpp:182-375 | The gates added are the full triangle of rows; for n = 1 no remainder pin is collected. |
| `Division.Netlist.ConnectDivOutputPins` | ODIN_II/SRC/Division.cpp:387-531 | Output pins are driven through buffers by the reversed quotient or by the remainder, and by zero beyond the divisor width. |
| `Division.Netlist.ResolveDivideNode` | ODIN_II/SRC/Division.cpp:64-100 | Building succeeds if and only if n >= 2 and m <= 2n-1, and then every behaviour of the built netlist divides. |
| `Division.CellSubtracts` | ODIN_II/SRC/Division.cpp:550-675 | In every behaviour a cell computes x - y - borrow and keeps or restores x as the control says. |
| `Division.RowSubtracts` | ODIN_II/SRC/Division.cpp:253-323 | A row's input word minus the divisor is the word of its difference bits minus 2^k times its last borrow, k being the row's length. |
| `Division.ControlReaches` | ODIN_II/SRC/Division.cpp:308-318 | The inverted last borrow reaches every cell of its row. |
| `Division.RowRestores` | ODIN_II/SRC/Division.cpp:205-349 | Each row yields quotient bit 1 and the difference when the divisor fits, and quotient bit 0 and its input unchanged when it does not. |
| `Division.NextRowInput` | ODIN_II/SRC/Division.cpp:279-285 | The next row works on the next dividend bit and twice the partial remainder without its top bit. |
| `Division.RowInvariant` | ODIN_II/SRC/Division.cpp:205-349 | After row i the dividend bits seen so far are quotient times divisor plus a remainder below the divisor, whenever D < d * 2^n. |
| `Division.ArrayDecomposes` | ODIN_II/SRC/Division.cpp:205-349 | The whole array decomposes D < d * 2^n into quotient and remainder. |
| `Division.ArrayDivides` | ODIN_II/SRC/Division.cpp:196-349 | For d > 0 the quotient is D / d if and only if D < d * 2^n, and then the remainder is D % d. |
| `Division.QuotientFits` | ODIN_II/SRC/Division.cpp:117-160 | D < d * 2^n holds whenever the original dividend has at most n bits or the divisor's top bit is 1. |
| `Division.DivideOutputs` | ODIN_II/SRC/Division.cpp:387-531 | The outputs of a divide node are the quotient zero-extended or truncated to the output width. |
| `Division.ModuloOutputs` | ODIN_II/SRC/Division.cpp:387-531 | The outputs of a modulo node are the remainder zero-extended or truncated to the output width. |
| `Division.DividerDivides` | ODIN_II/SRC/Division.cpp:64-100 | For every n >= 2, m <= 2n-1, output width and behaviour with d > 0 and D < d * 2^n the outputs are D / d or D % d modulo the output width. |
| `Division.DividerExact` | ODIN_II/SRC/Division.cpp:64-100 | With at least n output pins and d > 0, the pins of a divide node carry D / d if and only if D < d * 2^n. |
| `DivisionBehaviour.DividerBehaves` | ODIN_II/SRC/Division.cpp:64-100 | For every pair of operand words the divider netlist has a behaviour carrying them, so none of its theorems is about nothing. |
| `DivisionBehaviour.QuotientCanOverflow` | ODIN_II/SRC/Division.cpp:117-160 | Dividing the three-bit 4 by the two-bit 1 is accepted, and the output pins carry the quotient 3 or, of a modulo node, the remainder 1, at every output width of at least 2. |
| `DivisionOverflow.RowsAccount` | ODIN_II/SRC/Division.cpp:205-349 | For every dividend and divisor, after each row the bits seen so far are quotient times divisor plus partial remainder plus a multiple of 2^n. |
| `DivisionOverflow.ArrayCongruent` | ODIN_II/SRC/Division.cpp:205-349 | Whatever D and d are, quotient pins times d plus remainder pins is D modulo 2^n. |
| `DivisionOverflow.RowsAllOnes` | ODIN_II/SRC/Division.cpp:205-349 | For d * 2^n <= D <= d * 2^n + 2^n - d every row's quotient bit is 1 and leaves at least d: what has been seen is the partial remainder plus (2^(i+1) - 1) * d. |
| `DivisionOverflow.RemainderBeyond` | ODIN_II/SRC/Division.cpp:205-349 | For such D the remainder pins carry D - d * (2^n - 1), which is at least d, cut to n bits. |
| `DivisionOverflow.RemainderExact` | ODIN_II/SRC/Division.cpp:64-100 | With at least n output pins and D <= d * 2^n + 2^n - d, the pins of a modulo node carry D % d if and only if D < d * 2^n, or D is that bound and d divides 2^n. |
| `HardAdder.AdderChain.InitPort` | ODIN_II/SRC/adders.cpp:377-601 | Every slot of the port of one cell gets the operand bit its branch of the source computes, and no other slot changes. |
| `HardAdder.AdderChain.InitSplitAdders` | ODIN_II/SRC/adders.cpp:634-666 | All cells' operand slots are filled, and nothing else. |
| `HardAdder.AdderChain.TieInputs` | ODIN_II/SRC/adders.cpp:668-701 | With the dummy slots tied and the last cell grounded, each slot is an operand bit, the dummy 1, a zero or still empty. |
| `HardAdder.AdderChain.FillUnconnected` | ODIN_II/SRC/adders.cpp:703-710 | Exactly the empty operand slots get the pad. |
| `HardAdder.AdderChain.ConnectCarries` | ODIN_II/SRC/adders.cpp:717-719 | Each cell's carry in is the carry out of the cell before; operand slots stay. |
| `HardAdder.AdderChain.WireInputs` | ODIN_II/SRC/adders.cpp:678-719 | After all wiring each slot carries its operand bit, the dummy 1 or a zero, and the carries are chained from the carry in. |
| `HardAdder.AdderChain.ConnectCell` | ODIN_II/SRC/adders.cpp:744-760 | The sums of one cell go to the next output pins in order, unless a pin is taken twice, which fails. |
| `HardAdder.AdderChain.ConnectOutputs` | ODIN_II/SRC/adders.cpp:721-777 | With a dummy cell, or with one-bit cells, sum slot j of cell i drives output i*s + j - offset and no pin is taken twice; otherwise the wiring fails or leaves the outputs from s-1 on undriven. |
| `HardAdder.CountBounds` | ODIN_II/SRC/adders.cpp:836-851 | The count is the number of full cells in the longer operand plus one bit, and one more for the dummy. |
| `HardAdder.ChainReach` | ODIN_II/SRC/adders.cpp:836-851 | With a dummy cell the chain has room for the longer operand, the dummy bit and one carry bit; with one-bit cells it fits exactly. |
| `HardAdderSums.SlotMeans` | ODIN_II/SRC/adders.cpp:377-601 | The branches of the slot arithmetic amount to: slot t of the chain holds operand bit t - offset, or nothing. |
| `HardAdderSums.ChainSums` | ODIN_II/SRC/adders.cpp:616-719 | The first k cells of a chain compute the sum of the operand bits in their slots, with the carry between cells. |
| `HardAdderSums.WholeChainSums` | ODIN_II/SRC/adders.cpp:616-719 | The whole chain computes the sum of both padded operands and the carry in. |
| `HardAdderSums.ChainAdds` | ODIN_II/SRC/adders.cpp:616-791 | In every behaviour the output pins are exactly A + B + carry in, with the dummy cell, or with one-bit cells and carry in 0. |
| `HardAdderSums.ChainBehaves` | ODIN_II/SRC/adders.cpp:616-791 | Every choice of operands and carry in extends to a behaviour of the chain. |
| `HardAdderSums.TopOutputMissing` | ODIN_II/SRC/adders.cpp:721-734 | A chain that leaves its top output undriven does not add all operands, whatever its carry in. |
| `HardAdderSums.GroundedSlotsEmpty` | ODIN_II/SRC/adders.cpp:695-701 | Grounding the last cell's first slots never overwrites an operand bit when the count comes from the caller. |
| `HardAdderSums.CountCells` | ODIN_II/SRC/adders.cpp:842-848 | The count handed to the splitter, less the dummy, is the number of cells that the longer operand and one carry bit fill completely; a cell filled in part is not counted. |
| `HardAdderSums.OwnCarryLost` | ODIN_II/SRC/adders.cpp:688-715 | A node with a carry in of its own loses it when the global option grounds the first carry pin: the chain cannot add 0 + 0 + 1. |
| `HardAdderSums.SplitAdder` | ODIN_II/SRC/adders.cpp:616-858 | For all operand widths and cell sizes and max(a,b)+1 outputs, the chain always outputs A + B + the carry in of the node itself if and only if the carry in is not global, or the cells have one bit and the node has no carry in of its own. |
| `HardAdderSums.OperandUsedOnce` | ODIN_II/SRC/adders.cpp:377-719 | Each operand bit sits in exactly one slot of one cell, and the lemma names it. |
| `RippleAdder.Netlist.MakeAdder` | ODIN_II/SRC/adders.cpp:1173-1246 | One sum or carry function is built over the operand pins or copies of another function's pins, two-input while the carry is constant, with constants, padding and inversions placed as the source does. |
| `RippleAdder.Netlist.InstantiateAddWithCarryBlock` | ODIN_II/SRC/adders.cpp:1248-1262 | One stage per output bit is added, and each output pin that has a net is driven by its bit. When all have one, in every behaviour the pins of a two-port addition or of a subtraction carry (A + B) or (A - B) mod 2^w in order; those of an addition with a third port carry (A + B) mod 2^w with pin 0 on top. |
| `RippleAdder.StageAdds` | ODIN_II/SRC/adders.cpp:1173-1246 | Each stage is a full adder of the operand bit, the possibly inverted second operand bit and the carry, also in the specialised first stage. |
| `RippleAdder.StagesAdd` | ODIN_II/SRC/adders.cpp:1248-1262 | After k stages the sum bits plus the pending carry equal both operands so far plus the carry in. |
| `RippleAdder.RippleComputes` | ODIN_II/SRC/adders.cpp:1173-1262 | For all widths, constant or undriven pins included, the functions yield (A + B) mod 2^w or (A - B) mod 2^w; a missing first operand gives negation. |
| `RippleAdder.Netlist.ConnectOutputPinToNode` | ODIN_II/SRC/adders.cpp:1153-1168 | With two ports or in a subtraction bit i drives pin i; in an addition with a third port bit i drives pin i + 1 and the last bit pin 0; a missing pin and one without a net change nothing. |
| `RippleAdder.PinCarries` | ODIN_II/SRC/adders.cpp:1153-1168 | Every output pin that drives a net carries its own bit of the result, whatever the other pins are. |
| `RippleAdder.NodeAdds` | ODIN_II/SRC/adders.cpp:1153-1262 | Read with pin 0 on top for a node with a third port, and in order for all others, the output pins carry the sum or difference modulo 2^w. |
| `RippleAdder.CarryOutKept` | ODIN_II/SRC/partial_map.cpp:775-805 | With an output pin more than either operand, the pins of a three-port node carry A + B, its carry out included. |
| `RippleAdder.CarryInExact` | ODIN_II/SRC/adders.cpp:1173-1262 | The pins of a three-port node carry A + B plus its carry in modulo 2^w in all behaviours if and only if there is no output pin or the carry in is undriven or ground. |
| `RippleAdder.RippleBehaves` | ODIN_II/SRC/adders.cpp:1248-1262 | Every assignment of the surrounding nets extends to a behaviour of the block. |
| `Power.Netlist.PadBase` | ODIN_II/SRC/Power.cpp:157-169 | The base is zero- or sign-extended or truncated to the output width. |
| `Power.Netlist.ConstantSignalValue` | ODIN_II/SRC/netlist_utils.cpp:828-843 | The constant on the exponent pins is the unsigned number any behaviour reads there. |
| `Power.Netlist.ImplementConstantExponentiation` | ODIN_II/SRC/Power.cpp:115-222 | A chain of e-1 multipliers is built, none for exponent 1, and exponent 0 fails; for e >= 2 the outputs are B^e mod 2^OUT_width in every behaviour. |
| `Power.Netlist.ImplementNonConstantExponentiation` | ODIN_II/SRC/Power.cpp:262-417 | The table of multipliers for 2 .. 2^k-1 and the multiplexer over all 2^k entries, in order, are built; in every behaviour the outputs are B^E mod 2^OUT_width. |
| `Power.PaddedValue` | ODIN_II/SRC/Power.cpp:157-169 | Extension and truncation keep the signed or unsigned base modulo 2^OUT_width. |
| `Power.ChainPowers` | ODIN_II/SRC/Power.cpp:175-222 | Multiplier i of the chain carries the base to the i+2 modulo 2^OUT_width. |
| `Power.ConstantPowerExact` | ODIN_II/SRC/Power.cpp:115-222 | Among exponents of at least 1 the chain drives the outputs with B^e mod 2^OUT_width for every base and behaviour if and only if e >= 2; for e = 1 they are left undriven. |
| `Power.TablePowers` | ODIN_II/SRC/Power.cpp:319-377 | Table entry i carries the base to the i modulo 2^OUT_width. |
| `Power.VariablePower` | ODIN_II/SRC/Power.cpp:262-417 | For every base, signedness and exponent value of every exponent width the outputs are B^E mod 2^OUT_width. |
| `Power.ChainBehaves` | ODIN_II/SRC/Power.cpp:175-222 | Whatever the base pins carry, the chain has a behaviour agreeing with them. |
| `Power.TableBehaves` | ODIN_II/SRC/Power.cpp:319-417 | Whatever the base and exponent pins carry, the table network has a behaviour agreeing with them. |
| `MemoryCascade.Netlist.SplitCascadePort` | ODIN_II/SRC/BlockMemories.cpp:1708-1802 | In every behaviour bit j of the merged bus carries bit k * width + j of the signal, k being the highest active selector, or zero when none is active; a single port is handed through ungated. |
| `MemoryCascade.ChunkBits` | ODIN_II/SRC/netlist_utils.cpp:987-1025 | Bit j of port i is bit i * width + j of the signal that is split. |
| `MemoryCascade.Netlist.CreateWriteSide` | ODIN_II/SRC/BlockMemories.cpp:1098-1138 | For n > 2 write ports, in every behaviour: we2 is 1 exactly when some write enable is; with k the highest port enabled, bit j of addr2 is bit k * addr_width + j of the addresses and bit j of data2 is bit k * data_width + j of the data; with none both are 0. |
| `MemoryCascade.WriteSideAgrees` | ODIN_II/SRC/BlockMemories.cpp:1098-1138 | Merged under the same enables, address, data and enable come from the same port. |
| `MemoryCascade.CascadeBehaves` | ODIN_II/SRC/BlockMemories.cpp:1708-1802 | Whatever the nets outside carry, a feed-forward list of multiplexers has a behaviour; the builder keeps its list feed-forward. |
| `MemoryRelayout.Relayout.MovePort` | ODIN_II/SRC/BlockMemories.cpp:1565-1573 | A port's pins move, in order, into new slots at the end of the new node, and no other old slot changes. |
| `MemoryRelayout.Relayout.MoveEnables` | ODIN_II/SRC/BlockMemories.cpp:1612-1622 | Of the enable pins those at multiples of the data width move, in order, and the others are deleted. |
| `MemoryRelayout.Relayout.YmemToBram` | ODIN_II/SRC/BlockMemories.cpp:1508-1637 | The new node's slots and the deleted pins are exactly the two lists described, in order; without a write clock the clock slot stays empty. |
| `MemoryRelayout.EveryPinAccountedFor` | ODIN_II/SRC/BlockMemories.cpp:1551-1622 | Every old input pin is placed or deleted, once: new pins and deleted pins together are a permutation of the old pins. |
| `MemoryRelayout.InitBlockMemory` | ODIN_II/SRC/BlockMemories.cpp:124-190 | The ports read from the node, one behind the other, are the node's pins, with the given widths. |
| `MemoryRelayout.RelayoutRoundTrip` | ODIN_II/SRC/BlockMemories.cpp:124-190 | Cutting the new node's pins at the widths of its ports gives the cell's addresses, data and read enables in order, its first write clock if it has one, and bit k*data_width of the enables as the enable of port k. |
| `MemoryRelayout.RelayoutAndRead` | ODIN_II/SRC/BlockMemories.cpp:1508-1637 | Relaying a cell out and reading the new node as a block memory gives all of that back, and every pin of the cell is on the new node or deleted. |
| `VerilogAst.ExecMonotone` | ODIN_II/SRC/ast_loop_unroll.cpp:120-164 | The reference meaning of statements does not depend on the bound put on loop iterations. |
| `VerilogAst.RunsDeterministic` | ODIN_II/SRC/ast_loop_unroll.cpp:120-164 | In the reference meaning a statement has at most one result. |
| `LoopUnroll.DupAndFillBody` | ODIN_II/SRC/ast_loop_unroll.cpp:358-393 | The copy of the body has the loop variable replaced in all its descendants, but of a module instance only in its first child, and not at the root; all else is kept, place by place. |
| `LoopUnroll.BodyFilledAt` | ODIN_II/SRC/ast_loop_unroll.cpp:358-393 | At every place of the body the copy has a node of the same kind and number of children, or the same leaf, but the value for the loop variable where the place lies below the root and the path to it passes each module instance that names another child by its first child and beyond. |
| `LoopUnrollProof.InstanceFilled` | ODIN_II/SRC/ast_loop_unroll.cpp:369-376 | Each connection of a module instance in a copied body has the value it had in the iteration, and the rest of the instance is kept. |
| `LoopUnroll.ConditionAgrees` | ODIN_II/SRC/ast_loop_unroll.cpp:212-282 | On conditions built from VAR op NUM with and, or, not, the check accepts and the closure agrees with evaluating the condition. |
| `LoopUnroll.LeafConditionExact` | ODIN_II/SRC/ast_loop_unroll.cpp:196-282 | Among the comparisons the check accepts, the closure is right in every state if and only if the leaf is VAR op NUM. |
| `LoopUnroll.ConditionExact` | ODIN_II/SRC/ast_loop_unroll.cpp:196-282 | For every condition the check accepts and every state, the closure is right if and only if the condition, read with the loop variable on the left of each comparison, no value for a right operand that is a name, and short-circuit and/or, has the same truth value. |
| `LoopUnroll.GoodIsRight` | ODIN_II/SRC/ast_loop_unroll.cpp:196-282 | Conditions built from VAR op NUM are accepted and right in every state. |
| `LoopUnroll.UsualCondition` | ODIN_II/SRC/ast_loop_unroll.cpp:196-282 | VAR op NUM is accepted and right in every state for each of < > <= >= == !=. |
| `LoopUnroll.ConstantPartRight` | ODIN_II/SRC/ast_loop_unroll.cpp:196-282 | So is i < 5 && 1 < 10, which is not of that form. |
| `LoopUnroll.ConstantConditionWrong` | ODIN_II/SRC/ast_loop_unroll.cpp:196-282 | 1 < 10 is accepted and always holds, and its closure is false where the loop variable is 10. |
| `LoopUnroll.StepExact` | ODIN_II/SRC/ast_loop_unroll.cpp:293-324 | For every step whatever, the closure computes it in all states if and only if its value depends on the loop variable only and counting the operations the closure does not know as 0 makes no difference to it. |
| `LoopUnroll.ArithmeticStepExact` | ODIN_II/SRC/ast_loop_unroll.cpp:293-324 | A step of sums, differences, products and truncating quotients is computed right in all states if and only if no other variable matters to its value. |
| `LoopUnroll.NamesSuffice` | ODIN_II/SRC/ast_loop_unroll.cpp:293-324 | In particular a step of that kind that names no other variable is. |
| `LoopUnroll.PostAcceptsOtherVariable` | ODIN_II/SRC/ast_loop_unroll.cpp:289-324 | The step check lets a second variable through, and the closure then computes something else. |
| `LoopUnroll.PostAcceptsUnknownOperation` | ODIN_II/SRC/ast_loop_unroll.cpp:289-324 | The step check lets a comparison through, which the closure counts as 0, and a unary operation, whose missing second operand the closure reads. |
| `LoopUnroll.PostRejectsGoodStep` | ODIN_II/SRC/ast_loop_unroll.cpp:289-291 | The step check turns down a step over the loop variable alone with a compound right operand. |
| `LoopUnroll.PostAcceptedExact` | ODIN_II/SRC/ast_loop_unroll.cpp:285-291 | A step is accepted if and only if, going down its left operands, there are only + - * / with two operands until one whose operands are both the loop variable or numbers. |
| `LoopUnroll.UsualStep` | ODIN_II/SRC/ast_loop_unroll.cpp:285-324 | VAR op NUM is accepted and computed right for each of + - * /. |
| `LoopUnrollProof.SubstEval` | ODIN_II/SRC/ast_loop_unroll.cpp:358-393 | Substituting the variable's value keeps an expression's value and frees it of the variable. |
| `LoopUnrollProof.SubstExec` | ODIN_II/SRC/ast_loop_unroll.cpp:358-393 | A body that does not assign the variable and its filled copy do the same, from states that differ in the variable only. |
| `LoopUnrollProof.ResolveFor` | ODIN_II/SRC/ast_loop_unroll.cpp:120-164 | The block is the list of one filled copy per iteration; there is none for an unsupported loop or one without iterations. |
| `LoopUnrollProof.PlanExact` | ODIN_II/SRC/ast_loop_unroll.cpp:120-164 | A loop can be unrolled, iterations permitting, if and only if it starts with VAR = NUM, its condition is accepted for VAR, and it ends with a blocking assignment whose right side is an accepted step. |
| `LoopUnrollProof.PlanAgrees` | ODIN_II/SRC/ast_loop_unroll.cpp:212-356 | For every accepted condition that is read right and every accepted step whose value depends on the variable only, the test and step closures do what the loop's condition and step do. |
| `LoopUnrollProof.CopiesFollowLoop` | ODIN_II/SRC/ast_loop_unroll.cpp:120-164 | Where the rest of the loop runs to an end, so do the remaining copies, with the same state but for the variable. |
| `LoopUnrollProof.LoopFollowsCopies` | ODIN_II/SRC/ast_loop_unroll.cpp:120-164 | Where the remaining copies run to an end, so does the rest of the loop, with the same state but for the variable. |
| `LoopUnrollInPlace.LoopEnds` | ODIN_II/SRC/ast_loop_unroll.cpp:139-160 | A loop that ends in some state ends after a number of iterations fixed by its header alone. |
| `LoopUnrollInPlace.UnrolledLoopMeansLoop` | ODIN_II/SRC/ast_loop_unroll.cpp:120-164 | From every state, loop and block of copies reach the same states but for the loop variable, in both directions. |
| `LoopUnrollInPlace.UnrollingPreservesMeaning` | ODIN_II/SRC/ast_loop_unroll.cpp:19-115 | Prefix, copies and suffix mean what prefix, loop and suffix meant, but for the loop variable, if what the suffix does is independent of the variable's value on entry. |
| `LoopUnrollInPlace.IndifferentBlind` | ODIN_II/SRC/ast_loop_unroll.cpp:19-115 | Statements that each leave the variable alone, or are such a loop over it, are independent of its value on entry. |
| `LoopUnrollLimits.BlindExact` | ODIN_II/SRC/ast_loop_unroll.cpp:19-115 | Loops over a variable can be unrolled in front of a suffix, whichever loop and prefix it is, if and only if the suffix is independent of the variable's value on entry. |
| `LoopUnrollLimits.LaterReadDiffers` | ODIN_II/SRC/ast_loop_unroll.cpp:19-115 | An assignment that reads the loop variable is not, since the copies do not set it. |
| `LoopUnrollLimits.TargetExact` | ODIN_II/SRC/ast_loop_unroll.cpp:332-356 | The check never compares what the step assigns with the loop variable: a loop unrolled into at least one copy means what its copies mean if and only if the step assigns the loop variable, or the copies never run to an end. |
| `LoopUnrollLimits.EndlessLoopUnrolled` | ODIN_II/SRC/ast_loop_unroll.cpp:332-356 | for (i = 0; i < 1; j = i + 1), which never ends, is accepted and becomes one copy of its body. |
| `LoopUnrollLimits.ConstantLoopUnrolled` | ODIN_II/SRC/ast_loop_unroll.cpp:196-282 | for (i = 0; 0 < 1; i = i + 1), which never ends, is accepted and becomes one copy of its body, with another meaning. |
| `LoopUnrollInPlace.ParentNode.AddChildAtIndex` | ODIN_II/SRC/ast_util.cpp:361-373 | A child is inserted at an index by shifting; an index out of range changes nothing. |
| `LoopUnrollInPlace.ParentNode.RemoveChildAtIndex` | ODIN_II/SRC/ast_util.cpp:378-393 | A child is removed by shifting; an index out of range changes nothing. |
| `LoopUnrollInPlace.ParentNode.UnrollForLoop` | ODIN_II/SRC/ast_loop_unroll.cpp:19-115 | The first place of the loop in its parent is replaced by its copies, in order, and all other children stay; without copies nothing changes. |
| `LoopUnrollInPlace.InPlacePreservesMeaning` | ODIN_II/SRC/ast_loop_unroll.cpp:19-115 | The parent's child list after unrolling means what it meant before, but for the loop variable. |
| `AstRewrites.Slot.CheckNodeNumber` | ODIN_II/SRC/ast_util.cpp:984-1007 | A number that is 2^k with k >= 1 becomes the shift amount k on the right and the operation a shift; any other number changes nothing. |
| `AstRewrites.Slot.ExpandPower` | ODIN_II/SRC/ast_util.cpp:949-978 | A constant base is raised to a constant n as IEEE Std 1364-2005 prescribes, and 0 to a negative n yields nothing; any other base becomes a tree of n factors, 1 for n = 0, and the bare base for negative n. |
| `AstRewrites.Slot.CheckBinaryOperation` | ODIN_II/SRC/ast_util.cpp:1013-1037 | It fails exactly on a quotient or power whose second operand is not a number, and on 0 raised to a negative number; otherwise exactly products, quotients and powers of the stated forms are rewritten or folded. |
| `AstRewrites.FoldIsRaise` | ODIN_II/SRC/ast_util.cpp:958-962 | Raising a constant in the real numbers and dropping the fraction is the power of integers the standard defines, for every exponent. |
| `AstRewrites.ExpandPowerExact` | ODIN_II/SRC/ast_util.cpp:949-978 | The product tree equals the power if and only if n >= 0, or the base is 1, or the base is -1 and n is odd. |
| `AstRewrites.NegativePowerWrong` | ODIN_II/SRC/ast_util.cpp:949-978 | x ** -1, which is 0 for x = 2, becomes x. |
| `AstRewrites.ShiftForms` | ODIN_II/SRC/ast_util.cpp:984-1037 | x * 2^k and 2^k * x become x << k and x / 2^k becomes x >> k, for k >= 1; x times something that is no number stays. |
| `AstRewrites.PowerForms` | ODIN_II/SRC/ast_util.cpp:949-978 | x ** 0 becomes 1, x ** 1 becomes x and x ** (n+1) the product of x and the tree for n; a constant to a constant n >= 0 becomes its value. |
| `AstRewrites.RewritePreservesValue` | ODIN_II/SRC/ast_util.cpp:949-1037 | Reading identifiers as unsigned and exponents as non-negative, a rewritten operation has the value it had. |
| `BlifCovers.ReadBitMapFindUnknownGate` | ODIN_II/SRC/BLIFReader.cpp:1055-1290 | The gate type returned is the one the chain of tests yields, and GENERIC whenever the last output is not 1; without inputs it is a constant, 0 only for an empty line or exactly a blank and a 0. |
| `BlifCovers.ScanDiagonal` | ODIN_II/SRC/BLIFReader.cpp:1170-1230 | The scan succeeds exactly on the square cover with the given character on the diagonal and dashes elsewhere. |
| `BlifCovers.ScanMux` | ODIN_II/SRC/BLIFReader.cpp:1250-1275 | The two-input multiplexer test never succeeds. |
| `BlifCovers.RecognitionSound` | ODIN_II/SRC/BLIFReader.cpp:1103-1275 | For any input count and any non-empty cover, a recognised gate has the cover's sum-of-products value on every input vector. |
| `BlifCovers.ReadCover` | ODIN_II/SRC/BLIFReader.cpp:1055-1290 | For every cover the node read, whatever its type, has the cover's value on every input vector, the last row's output counting for all rows; without inputs the constant is right if and only if the line is a 1, is empty, or is exactly a blank and a 0. |
| `BlifPrinter.OutputNode` | ODIN_II/SRC/BLIFWriter.cpp:451-493 | The rows printed for a gate of any permitted arity are a cover of exactly its Boolean function, but of the negation for the comparisons LOGICAL_EQUAL and NOT_EQUAL. |
| `BlifPrinter.ConvertLongToBitString` | ODIN_II/SRC/odin_util.cpp:287-304 | The string holds the number's low bits, most significant first. |
| `BlifPrinter.PrintedCorrect` | ODIN_II/SRC/BLIFWriter.cpp:451-647 | What is printed covers the gate's function or, for the two comparisons, its negation. |
| `BlifPrinter.PrintedIsRecognised` | ODIN_II/SRC/BLIFWriter.cpp:451-647 | What is printed is recognised when read, as the gate the lemma names and never as GENERIC. |
| `BlifPrinter.ReadsBackSame` | ODIN_II/SRC/BLIFWriter.cpp:451-647 | The gate read back has the function that was printed, even under another type name. |
| `BlifPrinter.PrintThenRead` | ODIN_II/SRC/BLIFWriter.cpp:451-647 | Printing a gate and reading the rows gives a gate with the same function on every input if and only if the gate is not one of the two comparisons, whose negation comes back. |
| `BlifPrinter.DefineDecodedMux` | ODIN_II/SRC/BLIFWriter.cpp:660-670 | One row per selected input is printed. |
| `BlifPrinter.MuxTable` | ODIN_II/SRC/BLIFWriter.cpp:660-670 | That cover is 1 exactly when some selector and its data input are both 1. |
| `BlifPrinter.MuxStaysGeneric` | ODIN_II/SRC/BLIFWriter.cpp:660-670 | Read back, that cover stays GENERIC. |
| `BlifTraversal.Writer.DepthTraverse` | ODIN_II/SRC/BLIFWriter.cpp:405-439 | A traversal prints the node it starts from and then the unmarked nodes it reaches, marks them, each once, and leaves no unmarked fanout behind them. |
| `BlifTraversal.Writer.OutputBlif` | ODIN_II/SRC/BLIFWriter.cpp:371-392 | On any graph, cycles included, each node reachable from gnd, vcc, pad and the top inputs is printed exactly once, and no other. |
| `MixingOptimization.MultsOpt.FindHeaviest` | ODIN_II/SRC/MixingOptimization.cpp:89-100 | The first hardenable node of greatest weight that is not already used, or none. |
| `MixingOptimization.MultsOpt.Hardenable` | ODIN_II/SRC/MixingOptimization.cpp:72-75 | A multiplier can be hard if there are hard ones and one of its operands is wider than the minimum. |
| `MixingOptimization.ThresholdIsOptimal` | ODIN_II/SRC/MixingOptimization.cpp:84-112 | Every choice made by a weight threshold is at least as heavy as any other of at most its size. |
| `MixingOptimization.MultsOpt.SelectHard` | ODIN_II/SRC/MixingOptimization.cpp:84-112 | min(blocks, hardenable) nodes are hardened and no other such set is heavier. |
| `MixingOptimization.MultsOpt.EraseHard` | ODIN_II/SRC/MixingOptimization.cpp:114-120 | Exactly the nodes of weight -1 are erased; the rest keep their order. |
| `MixingOptimization.KeepIsRest` | ODIN_II/SRC/MixingOptimization.cpp:114-120 | What is left are the elements that are not erased, each at its place in the original order. |
| `MixingOptimization.MultsOpt.Perform` | ODIN_II/SRC/MixingOptimization.cpp:84-120 | The chosen set is a heaviest one, and the list left is the original minus the chosen nodes, in order, if and only if no node came in with weight -1; callers assign depths, which are never negative. |
| `MixingOptimization.MultsOpt.SetBlocksNeeded` | ODIN_II/SRC/MixingOptimization.cpp:126-142 | The count becomes the smaller of the old count and the need, scaled by the ratio and rounded down; a count or ratio out of range fails. |
| `Network.FullRunIsRun` | ace2/sim.c:292-340 | Plain re-evaluation of every object in every cycle gives a run for every input trace. |
| `Network.RunsAgree` | ace2/sim.c:292-340 | Two runs on the same traces agree on every object with a meaning. |
| `Network.MarksAreLive` | ace2/sim.c:156-178 | The marks of live objects are right: inputs and latches are live, and a logic object is exactly when one of its fanins is. |
| `Simulator.SeqUpdateAt` | ace2/sim.c:255-290 | After the latches have been copied in list order each holds the value its input resolves to, and nothing else has changed. |
| `Simulator.LatchTakesDataExact` | ace2/sim.c:255-290 | A latch takes its data object's old record, from every state, if and only if it resolves to that object. |
| `Simulator.SequentialIsSimultaneous` | ace2/sim.c:255-290 | Copying latches in sequence equals copying them all at once, from every state, if and only if each latch resolves to its own data object: following the earlier latches that overwrote it leads back to it. |
| `Simulator.ShiftRegisterUnsafe` | ace2/sim.c:255-290 | A shift register of two latches whose second is listed behind the first does not: the second takes the new record of the first. |
| `Simulator.ReadThroughIsNet` | ace2/sim.c:255-290 | The network in which each latch is driven by the object it resolves to is the given one if and only if the latch order is safe. |
| `SimulatorCycle.FaninIsSeen` | ace2/sim.c:180-253 | When an object's turn comes each of its fanins already has its value and status for this cycle. |
| `SimulatorCycle.EvalStep` | ace2/sim.c:180-253 | Evaluating one object, re-using its old value when all fanins are old, keeps the object and all before it equal to plain evaluation. |
| `SimulatorRun.AfterEvaluation` | ace2/sim.c:180-253 | After a cycle's evaluation the values extend the run by one full re-evaluation, and the counters count it. |
| `SimulatorRun.AfterLatches` | ace2/sim.c:255-290 | After the latch update, in any order, the state is the right start of the next cycle of the network in which each latch is driven by the object it resolves to. |
| `SimulatorRun.LatchCountsGoOn` | ace2/sim.c:279-288 | The record a latch takes over counts its data object, and behind another latch it counts one cycle less. |
| `SimulatorRun.LiveRunIsRun` | ace2/sim.c:180-253 | The simulated values are a run of full re-evaluation if and only if every object never evaluated has the constant value 0. |
| `SimulatorRun.ConstantOneStaysZero` | ace2/sim.c:156-178 | A network of one object without fanins that computes 1 is such a case. |
| `ActivitySimulation.Simulation.GetPiValues` | ace2/sim.c:26-119 | Each primary input takes its trace value, with status and counters to match, and nothing else changes. |
| `ActivitySimulation.Simulation.GetFaninStatus` | ace2/sim.c:156-178 | The status is that of the fanin list: new, old or undefined. |
| `ActivitySimulation.Simulation.GetFaninValues` | ace2/sim.c:124-154 | Values are returned exactly when some fanin is new, and they are the fanins' current values. |
| `ActivitySimulation.Simulation.EvaluateCircuit` | ace2/sim.c:180-253 | Every object in order ends the cycle done: value and status as full re-evaluation and comparison with the last cycle would give, with no internal assertion failing. |
| `ActivitySimulation.Simulation.UpdateFFs` | ace2/sim.c:255-290 | The latches are copied in list order. |
| `ActivitySimulation.Simulation.SimulateCycle` | ace2/sim.c:318-323 | One cycle extends the run and keeps the invariant between cycles, of the network as its latches read it. |
| `ActivitySimulation.Simulation.AceSimActivities` | ace2/sim.c:292-340 | For every network, trace and number of cycles, the network being taken as its latches read it: the values are those of re-evaluation with dead objects kept at 0, and of full re-evaluation exactly when these compute 0; ones and toggles count them; the closing assertions hold for all logic, for an input exactly when it is not Spiky with a last 1 in fewer than 100000 cycles, and for the objects of a latch exactly when they hold for its data object. |
| `ActivitySimulation.LatchAssertions` | ace2/sim.c:325-338 | A latch passes the closing assertions exactly when the object it follows does; behind another latch it always passes. |
| `ActivityBounds.ChangesBounded` | ace2/sim.c:328-335 | A logic signal changes at most twice as often as it is 1, and at most twice as often as it is 0. |
| `ActivityBounds.PiChangesBounded` | ace2/sim.c:26-119 | An input, whose first 1 counts as a change, may exceed the bound on zeros by one, and does so just when it is Spiky and ends with 1. |
| `ActivityBounds.PiAssertionsHold` | ace2/sim.c:328-335 | The final assertions fail for an input exactly when its signal starts with 1, never has two zeros in a row, ends with 1 and is shorter than 100000 cycles. |
| `ActivityBounds.SingleOneFails` | ace2/sim.c:328-335 | One cycle in which an input is 1 is such a signal. |
| `LatchCycles.ExploredIsClosed` | ace2/cycle.c:8-49 | From a marked and explored node no path leads to the target. |
| `LatchCycles.CycleFinder.InCycle` | ace2/cycle.c:8-49 | True only if the target can be reached; false only if everything marked in this pass is explored without meeting it; marks of other passes are overwritten by this pass's flag only. It terminates on cyclic graphs. |
| `LatchCycles.CycleFinder.LatchesInCycles` | ace2/cycle.c:51-78 | The result is the list of latches on cycles, from any earlier marks, without resetting them between passes. |
| `LatchCycles.OnCyclesExact` | ace2/cycle.c:51-78 | A latch is on that list, as often as it was given, if and only if it reaches itself by one or more fanin edges. |
| `Cube.WhichBitIsMod` | ace2/cube.h:18-22 | The bit number of an element is the element modulo 32. |
| `Cube.InsertLiteral` | ace2/cube.h:40-41 | Setting one bit of the packed words changes the literal it belongs to, and no other. |
| `Cube.RemoveLiteral` | ace2/cube.h:40-41 | Clearing one bit of the packed words changes the literal it belongs to, and no other. |
| `Cube.PackedCube.NodeGetLiteral` | ace2/cube.h:24-28 | The two bits read at a position are the literal the words stand for. |
| `Cube.PackedCube.SetInsert` | ace2/cube.h:40-41 | Inserting an element updates exactly one literal of the decoded cube. |
| `Cube.PackedCube.SetRemove` | ace2/cube.h:40-41 | Removing an element updates exactly one literal of the decoded cube. |
| `Cube.PackedCube.Dup` | ace2/cube.c:16-47 | A copy decodes to the same literals, shares no storage, whatever the fresh storage held; it fails exactly on a cube with a bad literal. |
| `Cube.PackedCube.NewDc` | ace2/cube.c:49-64 | A new cube decodes to all don't-cares, whatever its storage held. |
| `Bdd.ProbIsProbability` | ace2/bdd.c:172-242 | The weighted sum over a shared graph lies in [0, 1]. |
| `Bdd.PhasesSumToOne` | ace2/bdd.c:172-242 | The probabilities of the two phases sum to 1. |
| `Bdd.ProbIsExpected` | ace2/bdd.c:172-242 | On an ordered graph the recursion is the expectation of the function over all input assignments. |
| `SwitchProbability.SwitchBounds` | ace2/bdd.c:266-331 | The recursion, which weighs each leaf with the square of its path probability, lies between 0 and what weighing it once would give, which is at most P1, and equals that if and only if no path that matters has a weight strictly between 0 and 1. |
| `SwitchProbability.HalfInputLosesWeight` | ace2/bdd.c:266-331 | For a buffer, an ordered diagram, of an input that is 1 and changes half of the time, within its bounds and stationary, the recursion gives 1/8 instead of 1/4. |
| `SwitchProbability.SwitchOnceIsTransition` | ace2/bdd.c:266-331 | Weighed once, the recursion is P1 times the transition probability. |
| `SwitchProbability.ProbIsAffine` | ace2/bdd.c:172-242 | In each single input probability the weighted sum is affine. |
| `SwitchProbability.TransitionIsExpected` | ace2/bdd.c:266-331 | With stationary inputs the recursion with each path weighed once is the expectation, over all inputs now and all inputs next, of a switch to the given phase. |
| `SwitchEstimator.DirectIsStationary` | ace2/bdd.c:363-379 | For an activity within its bounds the two direction probabilities lie in [0, 1], keep the static probability stationary, and together make the activity divided by d. |
| `SwitchEstimator.Estimator.CalcCubeSwitchProbRecur` | ace2/bdd.c:172-242 | The memoised recursion returns what the plain weighted sum would, for every graph, cube and phase, and the memo table never holds anything else. |
| `SwitchEstimator.Estimator.CalcCubeSwitchProb` | ace2/bdd.c:244-264 | The result is the plain weighted sum, whatever the table held before. |
| `SwitchEstimator.Estimator.CalcSwitchProbRecur` | ace2/bdd.c:266-331 | Each leaf is reached with a packed cube that decodes to the literals chosen on its path, other literals untouched, and the caller's cube is not changed. |
| `SwitchEstimator.Estimator.CountPaths` | ace2/bdd.c:56-76 | Both path counts are increased by the number of paths to each leaf. |
| `SwitchEstimator.PathsAreCounted` | ace2/bdd.c:56-76 | The count is the number of branch sequences that lead down to the leaf. |
| `SwitchEstimator.HalfInputPassedOn` | ace2/bdd.c:363-379 | Static probability and activity one half are within bounds and give exactly the direction probabilities of that input. |
| `SwitchEstimator.BufferLosesActivity` | ace2/bdd.c:333-390 | At a depth below five such a buffer is given the activity 1/4, where twice the true chance of a switch is 1/2. |
| `SwitchEstimator.ScaledDepth` | ace2/bdd.c:344-349 | d is the largest whole number that is at most four tenths of the depth, but at least 1. |
| `SwitchEstimator.Estimator.CalcSwitchAct` | ace2/bdd.c:333-390 | With d so scaled and the phase more paths lead to, the activity lies in [0, 2d] for every diagram; it never exceeds 2d times the chance of a switch to that phase, a probability, which on an ordered diagram is the true one over inputs now and next, and meets it exactly when no path weight is lost; 0.5 without fanins. |

## Left out

- Integer widths: counters, weights, loop values and exponents are unbounded; the C `int` and `long` overflows are not modelled.
- Files, tokens, names, progress output and error texts: input and output are the data they carry; freeing memory is not modelled.
- Errors: a failed assertion or error exit is a false or absent result, or a precondition where the source asserts it of its caller.
- Generate blocks, scopes and names of unrolled blocks (`ODIN_II/SRC/ast_loop_unroll.cpp:40-97`): string and scope bookkeeping around the copies.
- `VerilogAst.Exec`: a statement's meaning takes a bound on loop iterations as a parameter, and `Runs` asks for some bound; module instances have no meaning, and values are unbounded.
- `LoopUnrollProof.ResolveFor`: takes the number of iterations as a ghost argument, because the source does not stop on a loop without end.
- `LoopUnrollInPlace.UnrollingPreservesMeaning`: speaks of loops whose condition the closure reads right and whose body does not assign the variable; the root of a body that is itself a bare identifier is not a statement.
- `AstRewrites.RewritePreservesValue`: a shift to the right is given no value on negative numbers, since its value there depends on a width; a power of two constants is computed on real numbers, not on doubles.
- `HardAdderSums.SplitAdder`: the soft-logic last adder is not modelled; it needs a setting the source disables (`ODIN_II/SRC/adders.cpp:126-127`).
- `Power.VariablePower`: a constant base with a variable exponent, for which the source swaps the two ports (`ODIN_II/SRC/Power.cpp:87-91`), is not modelled.
- `MemoryRelayout.Relayout.YmemToBram`: output pins, which move one to one, are not modelled; words have at least one bit.
- The read side of memories with many ports, `create_2r2w_dual_port_ram`, `resolve_pmux_node`, `resolve_case_not_equal_node` and the flip-flop expansions: not modelled.
- `BlifCovers.ReadCover`: takes lines already cut into tokens; the coarse-grained mode, which reads no cover, is not modelled.
- `BlifPrinter.OutputNode`: unknown values are not modelled.
- `MixingOptimization.MultsOpt.SetBlocksNeeded`: the scaling is done on real numbers, not on floats.
- `ActivitySimulation.Simulation.GetPiValues`: random input values are any trace; latch and latch-input objects do not occur in the evaluation order.
- `Bdd.ProbIsExpected`: the graph's child selectors are taken as the code has them on an abstract graph; complemented edges are not related to Boolean complement.
- `SwitchEstimator.Estimator.CalcSwitchAct`: the corrections for rounding, which do nothing on real numbers within the stated bounds, are not modelled; the scaled depth is four tenths of the depth rounded down, not a product of doubles.
- ABC, CUDD, `VNumber`, and helpers that move one pin or add one fanout: taken as their obvious effect.
