# Yarg: proofs about its core

Yarg is a small language for microcontrollers: a compiler to byte code, an interpreter whose
routines run on a segmented stack, a garbage-collected heap with interned strings, arbitrary-precision
integers, packages of compiled code that are loaded in place, and channels between routines. This
project models those parts in Dafny and proves what they are for.

* **Integers** (`Digits`, `BigInt`, `BigIntDiv`, `Decimal`, `DecimalLength`, `IntOps`). Sign and magnitude in base
  65536, in fixed-capacity digit arrays that are changed in place and may be shared by operand and
  result. Addition, subtraction, comparison, shifts, multiplication, long division and decimal text
  are exact, and it is proved when the overflow flag says exactly that the result has no room.
* **Tables and heap** (`Objects`, `Table`, `Reachability`, `Heap`, `HeapFields`, `Mutator`, `MutatorLaws`).
  Open addressing with tombstones behaves as a finite map; a collection keeps exactly what is reachable, in order; strings
  with equal contents are one object; and no program can tell when a collection happened. `HeapFields` says
  kind by kind which objects the fields of an object keep.
* **Expressions as tokens** (`Grammar`, `GrammarLaws`, `Parser`). The precedence parser accepts exactly the
  chains of a precedence and gives them back; which operator takes what is proved with the tokens written out.
* **Compiler and interpreter** (`Language`, `Codegen`, `Acceptance`, `CodeLaws`, `Compiler`, `CompilerCorrect`,
  `Bytecode`, `Interpreter`, `Script`, `ScriptLaws`). `Language` says what a script means; `Compiler` emits
  bytes and patches jumps in place and is proved to emit what `Codegen` describes; `CompilerCorrect` proves that this code
  does what the script means, for every script that compiles, ending or not; `Interpreter` is the
  `run` loop on a routine's stack. `Acceptance` says which scripts compile, `CodeLaws` which bytes they
  become, and `ScriptLaws` what they print when these are run.
* **Names in nested functions** (`Scoping`, `Closures`, `ClosureLaws`, `FunctionCompilers`,
  `ClosureRuns`, `ClosureOrder`). The tables of locals and upvalues that the compiler keeps for functions
  inside functions lead every mention to the variable of lexical scope, captured variables are closed and not
  popped, and the compiled operations run on a routine's stack and upvalues.
* **Routines and closures** (`Routines`, `SharedVariables`, `SharingLaws`). The segmented stack never moves a slot,
  the list of open upvalues is kept sorted, and closing is invisible: captured variables are simply
  shared.
* **Packages** (`PackFormat`, `Pack`, `PackLoad`, `PackLaws`). The writer and the loader compute the layout
  separately and agree on it; loading undoes packing; and what is at each place of a package is stated byte
  by byte.
* **Channels** (`Channel`). A ring buffer whose wait test is a step of its own is a queue under every
  interleaving of one sender and one receiver, delivers under every fair one, and keeps to its capacity
  with no more of them.

Objects that the source changes in place are classes here, and their methods are proved against
functions or ghost fields that say what they hold; the lemmas are about those.

Things found on the way, each stated by a member below:

* `int_set_s` loses an overflow on a number of 254 digits, the size of its accumulator: the largest such
  number with a zero behind it is read as another number and not flagged (`Decimal.LoseOverflow`). The
  flag is exact on every decimal for smaller targets and for no other (`Decimal.FlagIsExactIff`). Up to
  1223 characters the size chosen from the length rules it out (`DecimalLength.IntOfString`); beyond
  that the size of a literal, computed in eight bits, no longer holds every decimal of its length
  (`DecimalLength.LiteralFits`).
* `int_mul` also reports overflow when one factor is zero and the other is longer than the result
  (`BigInt.MulZeroOverflows`); in exactly those cases the flag is wrong (`BigInt.MulFlagIsExactIff`).
* The remainder of `int_div` gets the denominator added whenever the signs differ and the numerator is
  not zero, even if the remainder was zero: `-6 % 3` is 3 (`BigIntDiv.MinusSixModuloThree`). The
  remainder is smaller than the denominator in all other cases (`BigIntDiv.RemainderIsSmallIff`).
* The wait test of a channel is outside its lock, so two senders can overfill it and two receivers
  can take the count below zero (`Channel.BoundedIffOneEach`).
* The comment in `pack_format.h` gives the fifth byte of the magic number as 00; the code has 0xff
  (`PackFormat.PackageBegins`).
* `%` binds like `+`, so `a % b * c` is `a % (b * c)` (`GrammarLaws.RemainderByProduct`).

## Model

| member | source | states |
|---|---|---|
| `BigInt.NormBounds` | cyarg/big-int/big-int.c:852-871 | a number that meets the representation invariant has as many digits as its magnitude needs and no more |
| `BigInt.Int.constructor` | cyarg/big-int/big-int.c:63-95 | a new number of any capacity is a valid zero |
| `BigInt.Init` | cyarg/big-int/big-int.c:63-71 | the number becomes zero and meets the invariant |
| `BigInt.SetU` | cyarg/big-int/big-int.c:123-155 | an unsigned 64-bit value is stored exactly, or overflow is set exactly when it has too many digits |
| `BigInt.SetI` | cyarg/big-int/big-int.c:98-121 | the same for signed values, the smallest included |
| `BigInt.SetT` | cyarg/big-int/big-int.c:185-193 | a copy has the same digits, sign and flag |
| `BigInt.Neg` | cyarg/big-int/big-int.c:620-623 | the value changes sign |
| `BigInt.IsZero` | cyarg/big-int/big-int.c:625-629 | exact for normalised numbers |
| `BigInt.IsAbs` | cyarg/big-int/big-int.c:672-700 | comparing digits from the top compares magnitudes |
| `BigInt.Is` | cyarg/big-int/big-int.c:631-670 | compares values, signs and lengths included |
| `BigInt.AddPos` | cyarg/big-int/big-int.c:223-281 | magnitudes are added by carrying, also onto an operand; overflow exactly when the sum has no room, and then what is left is the sum without its last carry |
| `BigInt.SubAGtB` | cyarg/big-int/big-int.c:363-420 | the smaller magnitude is taken from the larger by borrowing, the result is trimmed and the digits above it are zero |
| `BigInt.SubAbs` | cyarg/big-int/big-int.c:348-361 | the signed difference of two magnitudes |
| `BigInt.Add` | cyarg/big-int/big-int.c:195-221 | the sum of the values, normalised; overflow exactly when it does not fit, and what is left then; operands may be the result |
| `BigInt.Sub` | cyarg/big-int/big-int.c:283-309 | the difference, likewise |
| `BigInt.Shift` | cyarg/big-int/big-int.c:311-346 | multiplies by a power of 65536, or divides by one, in place; overflow exactly when digits would be lost |
| `BigInt.MulDigit` | cyarg/big-int/big-int.c:438-454 | one digit product, shifted and added, advances the accumulated product by exactly that much |
| `BigInt.Mul` | cyarg/big-int/big-int.c:422-457 | the product of the values with its sign; the flag is set exactly under the stated condition; what is left when a multiplication by one digit overflows |
| `BigInt.MulOverflowTight` | cyarg/big-int/big-int.c:422-457 | for nonzero factors that condition is that the product does not fit |
| `BigInt.MulFlagIsExactIff` | cyarg/big-int/big-int.c:438-454 | that flag says that the product does not fit if and only if neither factor is zero or the lengths leave room |
| `BigInt.MulZeroOverflows` | cyarg/big-int/big-int.c:442-446 | a run of the other case: zero times a number of three digits overflows two |
| `BigIntDiv.GuessIsLow` | cyarg/big-int/big-int.c:571-594 | a quotient digit guessed from the leading digits and the rounded-up top of the denominator is never too large |
| `BigIntDiv.Guess` | cyarg/big-int/big-int.c:571-597 | the guess is at least one, and what is to be subtracted is that multiple of the denominator |
| `BigIntDiv.Reduce` | cyarg/big-int/big-int.c:571-606 | quotient times denominator plus rest stays the numerator, and the rest gets smaller |
| `BigIntDiv.Narrow` | cyarg/big-int/big-int.c:551-569 | moving down one digit keeps that equation with the quotient shifted up |
| `BigIntDiv.LineUp` | cyarg/big-int/big-int.c:525-546 | the denominator is shifted until the numerator is less than 65536 times it |
| `BigIntDiv.Subtract` | cyarg/big-int/big-int.c:599-603 | a guess that is not too high is taken off the numerator and added to the quotient |
| `BigIntDiv.RoomAtNext` | cyarg/big-int/big-int.c:551-569 | if moving the quotient to the next position loses no digit, the finished quotient has room: an overflow is always noticed there |
| `BigIntDiv.Divide` | cyarg/big-int/big-int.c:511-606 | the long-division loop ends, and leaves the quotient and remainder of the magnitudes |
| `BigIntDiv.Div` | cyarg/big-int/big-int.c:482-618 | the truncated quotient and the remainder of the language, also when the quotient replaces the numerator; when each flag is set; the early returns; when the quotient overflows, the remainder is never written |
| `BigIntDiv.SignedDivision` | cyarg/big-int/big-int.c:482-618 | how the signed results follow from those of the magnitudes, and when the denominator is added |
| `BigIntDiv.RemainderIsSmallIff` | cyarg/big-int/big-int.c:607-617 | the remainder is smaller than the denominator if and only if the signs agree or the denominator does not divide the numerator |
| `BigIntDiv.MinusSixModuloThree` | cyarg/big-int/big-int.c:607-617 | `-6 % 3` is 3 |
| `Decimal.NumeralReads` | cyarg/big-int/big-int.c:733-773 | the digits of a number, read back, are the number |
| `Decimal.CanonicalRoundTrip` | cyarg/big-int/big-int.c:733-773 | the same with the sign |
| `Decimal.CanonicalShape` | cyarg/big-int/big-int.c:733-773 | no leading zeros |
| `Decimal.WrittenByDigits` | cyarg/big-int/big-int.c:733-773 | one more digit at the end of the text makes ten times the number and the digit, and a minus sign in front the negation |
| `Decimal.ReadByDigits` | cyarg/big-int/big-int.c:157-183 | the same of every decimal that is read |
| `Decimal.ToS` | cyarg/big-int/big-int.c:733-773 | prints the canonical decimal, zero-terminated, at the end of the buffer, by dividing in place by 10^19 |
| `Decimal.SetS` | cyarg/big-int/big-int.c:157-183 | reads every decimal that fits exactly; for every decimal and target, what is held and whether the flag is raised; below 254 digits the flag tells exactly what does not fit |
| `Decimal.ReadDigit` | cyarg/big-int/big-int.c:174-181 | one character: ten times the number in an accumulator whose own flag nobody looks at, and then the digit |
| `Decimal.FirstThatDoesNotFit` | cyarg/big-int/big-int.c:176-180 | with the first character that is too many, the flag is raised if and only if ten times the number before it still fits the accumulator |
| `Decimal.FlagIsExact` | cyarg/big-int/big-int.c:157-183 | in a target smaller than the accumulator the flag is raised on exactly the decimals that do not fit |
| `Decimal.FlagIsExactIff` | cyarg/big-int/big-int.c:157-183 | the flag is exact on every decimal if and only if the target is smaller than the accumulator |
| `Decimal.OverflowIsLost` | cyarg/big-int/big-int.c:162-181 | 65536^254 - 1 with a zero behind it leaves the flag clear and another number |
| `Decimal.LoseOverflow` | cyarg/big-int/big-int.c:157-183 | the same of a run on a number of 254 digits |
| `Decimal.DecimalRoundTrip` | cyarg/big-int/big-int.c:157-183 | what was printed and read back compares equal |
| `DecimalLength.DigitsForSIsLeast` | cyarg/big-int/big-int.h:20-22 | the size computed from the length of a decimal is the least that holds every decimal of that length, up to the length at which it exceeds 254 |
| `DecimalLength.LiteralFits` | cyarg/ast.c:90-97 | a literal, whose size is computed in eight bits, has room for every decimal of its length if and only if that is at most 1223 |
| `DecimalLength.IntOfString` | cyarg/builtin.c:1002-1007 | an integer made from a string of at most that length is exact: no overflow is raised and none is lost |
| `IntOps.BinaryIntOp` | cyarg/vm.c:1633-1685 | with the sizes it chooses, every operator is exact whenever the true result fits in 254 digits, and then it is what the language says; quotients and remainders always are |
| `IntOps.BinaryIntBoolOp` | cyarg/vm.c:1687-1714 | comparing digits gives what the language says of the operator between the two values |
| `IntOps.UnaryIntOp` | cyarg/vm.c:1620-1631 | the negation that the language wants is the new integer with the other sign |
| `IntOps.ResultDigits` | cyarg/vm.c:1641-1662 | the size chosen for each operator |
| `IntOps.SumFits` | cyarg/vm.c:1643-1645 | one digit more than the longer operand loses no sum or difference that 254 digits could hold |
| `IntOps.ProductFits` | cyarg/vm.c:1646-1648 | the digits of both operands together lose no product that 254 digits could hold |
| `IntOps.QuotientRoom` | cyarg/vm.c:1649-1651 | the digits of the numerator hold every quotient |
| `IntOps.RemainderRoom` | cyarg/vm.c:1652-1658 | the size for a remainder is enough on each path of the division |
| `IntOps.IsRange` | cyarg/big-int/big-int.c:702-731 | below, within or above two 64-bit bounds, by value |
| `IntOps.AllocateIntValue` | cyarg/value.c:516-525 | a zero with at least the digits asked for |
| `Table.FindEntry` | cyarg/table.c:29-50 | probing ends, at the entry of the key or at the slot where it belongs |
| `Table.InsertShape` | cyarg/table.c:89-104 | writing a key into that slot stores exactly that one key more |
| `Table.DeleteShape` | cyarg/table.c:106-117 | a tombstone removes the key and keeps every other key reachable by probing |
| `Table.Absent` | cyarg/table.c:38-49 | reaching an empty slot without having met the key means that it is not stored |
| `Table.CountsKeysAndTombstones` | cyarg/table.c:189-207 | the count of a table is the number of its keys and of the tombstones that deleted ones left |
| `Table.ValueTable.constructor` | cyarg/table.c:18-22 | a new table is the empty map |
| `Table.ValueTable.TableInvariant` | cyarg/table.c:189-207 | counting again always agrees |
| `Table.ValueTable.Get` | cyarg/table.c:52-62 | found exactly when the map has the key, with its value |
| `Table.ValueTable.Set` | cyarg/table.c:89-104 | updates the map at one key and says whether it is new |
| `Table.ValueTable.Delete` | cyarg/table.c:106-117 | removes one key from the map, in place |
| `Table.ValueTable.AdjustCapacity` | cyarg/table.c:64-87 | growing keeps the map, drops the tombstones and leaves room below the load limit |
| `Table.ValueTable.AddAll` | cyarg/table.c:119-126 | merges two maps |
| `Table.ValueTable.FindString` | cyarg/table.c:128-147 | finds a key by contents exactly when there is one, although insertion probes by pointer |
| `Table.NoMatch` | cyarg/table.c:128-147 | an empty slot on the probe by contents means that no key has them |
| `Table.ValueTable.RemoveWhite` | cyarg/table.c:149-158 | removes exactly the keys that are not marked |
| `Reachability.ClosedHoldsAll` | cyarg/memory.c:664-669 | a set closed under children that holds the roots holds everything reachable |
| `Heap.Vm.MarkObject` | cyarg/memory.c:150-170 | marks and pushes an object once; marked objects that are not on the gray stack have marked children |
| `Heap.Vm.BlackenObject` | cyarg/memory.c:215-301 | by the kind of the object, everything in its fields is marked; then it is black, and nothing unreachable is marked; which fields those are is in the rows of `HeapFields` |
| `Heap.Vm.MarkRoutine` | cyarg/routine.c:259-283 | the slots of a routine, its frames, open upvalues, slices and errors, and what it starts from and ends with |
| `Heap.Vm.MarkChannel` | cyarg/channel.c:83-91 | the values that a channel holds, along its ring |
| `Heap.Vm.MarkTable` | cyarg/table.c:160-169 | keys and values of the entries in use |
| `Heap.Vm.MarkValue` | cyarg/memory.c:172-180 | the object that a value is, and its type |
| `Heap.Vm.TraceReferences` | cyarg/memory.c:664-669 | the loop ends with an empty gray stack |
| `Heap.MarkedIsReachable` | cyarg/memory.c:659-669 | what is then marked is exactly what is reachable |
| `Heap.Vm.SweepStep` | cyarg/memory.c:675-688 | unlinks an unmarked object or clears a mark, keeping the list linked |
| `Heap.Vm.Sweep` | cyarg/memory.c:671-691 | the list keeps exactly the marked objects, in their order, with marks cleared |
| `Heap.Vm.CollectGarbage` | cyarg/memory.c:703-733 | afterwards the list holds exactly the reachable objects, in order, unmarked, and the string table only those of its keys; `HeapFields` says of each kind what its fields keep |
| `HeapFields.ReachableIsLeast` | cyarg/memory.c:664-669 | what is reachable is what every set of objects has that holds the roots and is closed under references |
| `HeapFields.FieldsAreThere` | cyarg/memory.c:703-733 | before and after a collection, every field of every object in the list, named by kind and field, is nothing or an object in the list |
| `HeapFields.CollectWithClosure` | cyarg/memory.c:235-257 | a run: a closure that a root holds keeps its function, its upvalues, and what those hold |
| `HeapFields.LeafRefers` | cyarg/memory.c:273-283 | strings, integers and natives refer to nothing |
| `HeapFields.BoundMethodRefers` | cyarg/memory.c:223-228 | a bound method refers to exactly its receiver and its method |
| `HeapFields.ClassRefers` | cyarg/memory.c:229-234 | a class to exactly its name and the keys and values of its methods |
| `HeapFields.ClosureRefers` | cyarg/memory.c:235-242 | a closure to exactly its function and each of its upvalues |
| `HeapFields.FunctionRefers` | cyarg/memory.c:243-248 | a function to exactly its name and its constants |
| `HeapFields.InstanceRefers` | cyarg/memory.c:249-254 | an instance to exactly its class and its fields |
| `HeapFields.UpvalueRefers` | cyarg/memory.c:255-257 | an upvalue to exactly what it has closed over |
| `HeapFields.RoutineRefers` | cyarg/routine.c:259-283 | a routine to exactly what its slots, frames, open upvalues and the rest of its fields hold |
| `HeapFields.HeldAt` | cyarg/channel.c:83-91 | the values that a channel holds are those from its read cursor on, around the ring |
| `HeapFields.ChannelRefers` | cyarg/channel.c:83-91 | a channel refers to exactly these |
| `HeapFields.SyncGroupRefers` | cyarg/sync_group.c:42-45 | a sync group to exactly its channels and results |
| `HeapFields.MapRefers` | cyarg/memory.c:284-289 | a map to exactly its type and the keys and values of its entries |
| `HeapFields.TreeRefers` | cyarg/memory.c:263-301 | other objects to exactly their parts |
| `Heap.Vm.AllocateString` | cyarg/yargobject.c:96-105 | a new string survives the collections its own allocation and its insertion may cause, and is interned; so does everything the roots reached, with the references it had |
| `Heap.Vm.Intern` | cyarg/yargobject.c:101-103 | the insertion into the string table keeps contents unique |
| `Heap.Vm.CopyString` | cyarg/yargobject.c:127-136 | gives the one string with these contents, the old one if there is one; everything the roots reached is kept |
| `Heap.Vm.AllocateCell` | cyarg/vmobject.c:34-42 | a new object with an empty cell, on a heap that may be collected first |
| `Heap.Vm.PointerEqualityIsContentEquality` | cyarg/yargobject.c:96-165 | in every valid heap two strings are one object exactly when their contents are equal |
| `Heap.HashesInOrder` | cyarg/yargobject.c:107-114 | the hash of a string, character by character, with its constants |
| `Mutator.Perform` | cyarg/memory.c:703-733 | each step of a program that makes strings and cells, stores and fetches references and compares them, with a collection before or within it, does what it does on a heap that is never collected |
| `Mutator.Observe` | cyarg/memory.c:703-733 | so every program sees the same under every choice of when to collect |
| `MutatorLaws.StringsCompare` | cyarg/yargobject.c:127-136 | on that heap two strings compare equal exactly when their contents are, in every state |
| `MutatorLaws.CellsAreNew` | cyarg/vmobject.c:34-42 | a new cell is no object that there was |
| `MutatorLaws.GetWhatWasPut` | cyarg/vmobject.c:34-42 | what was put into a cell is what is got out of it |
| `MutatorLaws.PutElsewhere` | cyarg/vmobject.c:34-42 | until something is put into the same cell, by whatever register holds it |
| `MutatorLaws.CellsAreShared` | cyarg/vmobject.c:34-42 | a cell that is fetched from another cell is that cell, and not a copy |
| `MutatorLaws.NewCellsAreEmpty` | cyarg/vmobject.c:34-42 | a new cell holds nothing |
| `MutatorLaws.NothingToSee` | cyarg/memory.c:703-733 | collections change nothing, whenever they come |
| `MutatorLaws.KeepString` | cyarg/memory.c:703-733 | a run: a string that only a cell holds outlives collections |
| `Grammar.OperatorPrecedence` | cyarg/parser.c:771-801 | which binary operators are at which level |
| `GrammarLaws.LogicBindsLeast` | cyarg/parser.c:19-32 | `or` binds less tightly than `and`, and `and` less than every binary operator |
| `GrammarLaws.OperatorOrder` | cyarg/parser.c:24-27 | the order of the binary operators |
| `GrammarLaws.TwoOperators` | cyarg/parser.c:872-902 | the tokens of `a op b op' c`, for every two operators: the second one takes the middle exactly if it binds more tightly |
| `GrammarLaws.RemainderByProduct` | cyarg/parser.c:784-788 | `a % b * c` is a remainder by a product |
| `GrammarLaws.LeftToRight` | cyarg/parser.c:784-788 | `a - b - c` takes both from `a` |
| `GrammarLaws.OrOfAnd` | cyarg/parser.c:583-595 | `a or b and c` is `a or (b and c)` |
| `GrammarLaws.OrAfterAnd` | cyarg/parser.c:583-595 | `a and b or c` is `(a and b) or c` |
| `GrammarLaws.AndOfOperator` | cyarg/parser.c:583-595 | `a and b op c` keeps `b op c` together, for every operator |
| `GrammarLaws.OperatorBeforeAnd` | cyarg/parser.c:583-595 | `a op b and c` keeps `a op b` together |
| `GrammarLaws.UnaryBindsMost` | cyarg/parser.c:531-547 | `-a op b` negates `a` only, and `!` likewise |
| `GrammarLaws.Parentheses` | cyarg/parser.c:574-581 | parentheses keep together what is in them |
| `GrammarLaws.Assignments` | cyarg/parser.c:245-260 | `a = b = c op d` assigns the result to `b`, and that to `a` |
| `GrammarLaws.NoAssignmentToASum` | cyarg/parser.c:895-901 | `a op b = c` is an error |
| `GrammarLaws.Literals` | cyarg/parser.c:771-866 | each literal is its token |
| `Grammar.ParsesChain` | cyarg/parser.c:872-902 | the tokens of a chain of a precedence, before anything of lower precedence, parse to exactly that chain |
| `Grammar.ParsedIsChain` | cyarg/parser.c:872-902 | whatever parses is a chain of that precedence written out, with precedences never increasing along it, and parsing could not have gone on |
| `Grammar.ParsesExactly` | cyarg/parser.c:872-902 | both together: parsing succeeds with a chain if and only if its tokens come first and properly end |
| `Grammar.ParsesOperand` | cyarg/parser.c:245-260 | operands: assignments only where they may stand, groupings, unary operators |
| `Parser.Parser.constructor` | cyarg/parser.c:46-57 | a parser at the first token |
| `Parser.Parser.Advance` | cyarg/parser.c:137-146 | moves to the next token |
| `Parser.Parser.Match` | cyarg/parser.c:148-152 | moves on exactly if the current token is the one asked for |
| `Parser.Parser.ParsePrecedence` | cyarg/parser.c:872-902 | computes what the grammar says, consumes exactly that, and reports an error exactly when there is one; `GrammarLaws` says which tree that is, with the tokens written out |
| `Parser.Parser.ParsePrefix` | cyarg/parser.c:771-866 | the same for the rules that begin an expression |
| `Parser.Parser.ParseInfix` | cyarg/parser.c:886-893 | the loop that appends links gives the chain of the grammar |
| `Parser.Parser.NamedVariable` | cyarg/parser.c:245-260 | a name, or an assignment where one is allowed |
| `Parser.Parser.ParseGrouping` | cyarg/parser.c:574-581 | an expression up to its closing parenthesis |
| `Parser.Parser.ParseUnary` | cyarg/parser.c:531-547 | the operand of a unary operator binds at unary precedence |
| `Language.OneMeaning` | cyarg/vm.c:657-802 | a script that ends means one thing, however many rounds its loops are allowed |
| `Codegen.ConstIndex` | cyarg/chunk.c:31-43 | the first constant equal to the one asked for, or one past the last |
| `Codegen.Resolve` | cyarg/compiler.c:167-179 | the innermost local of a name |
| `Acceptance.Compiles` | cyarg/compiler.c:1164-1214 | what compiles follows the rules about names, which are stated without slots and depths; what follows them and has at most 255 parts compiles |
| `Acceptance.RedeclaredIff` | cyarg/compiler.c:327-343 | the search for a name in the scope finds it exactly if this block has declared it |
| `Acceptance.DeclaredTwice` | cyarg/compiler.c:327-343 | a block within may declare a name again, the same block may not |
| `Acceptance.InitialisedByItself` | cyarg/compiler.c:167-179 | a local in its own initialiser is an error, a global is none |
| `Acceptance.LocalsLimit` | cyarg/compiler.c:181-191 | a block with `n` variables compiles if and only if `n` is at most 255 |
| `Acceptance.ConstantsLimit` | cyarg/compiler.c:230-239 | a script with `n` globals if and only if `n` is at most 256 |
| `Acceptance.BranchLimit` | cyarg/compiler.c:311-321 | a branch if and only if it is at most 65535 bytes long |
| `Acceptance.BodyLimit` | cyarg/compiler.c:152-160 | a loop if and only if its jump back is at most that long |
| `CodeLaws.NumberBytes` | cyarg/compiler.c:268-292 | the bytes of every number of up to 24 bits, low byte first |
| `CodeLaws.LargeNumbers` | cyarg/compiler.c:268-292 | larger ones are constants, while there is room |
| `CodeLaws.LiteralBytes` | cyarg/chunk.h:8-11 | the bytes of `nil`, `true` and `false` |
| `CodeLaws.LocalBytes` | cyarg/compiler.c:454-499 | of reading and assigning a local |
| `CodeLaws.GlobalBytes` | cyarg/compiler.c:454-499 | of reading and assigning a global |
| `CodeLaws.OperatorBytes` | cyarg/compiler.c:402-438 | of every operator, after its operands |
| `CodeLaws.AndOrBytes` | cyarg/compiler.c:382-400 | of `and` and `or`, with the distances of their jumps, high byte first |
| `CodeLaws.SimpleBytes` | cyarg/compiler.c:1069-1136 | of `print` and of an expression that is a statement |
| `CodeLaws.DeclarationBytes` | cyarg/compiler.c:806-824 | of a declaration, global or local, with an initialiser or without |
| `CodeLaws.BlockBytes` | cyarg/compiler.c:845-860 | a block ends with one pop for each of its variables |
| `CodeLaws.IfBytes` | cyarg/compiler.c:868-882 | of `if`, piece by piece |
| `CodeLaws.WhileBytes` | cyarg/compiler.c:919-930 | of `while` |
| `CodeLaws.ForBytes` | cyarg/compiler.c:972-1001 | of the rounds of `for`, with its four jumps |
| `CodeLaws.ScriptBytes` | cyarg/compiler.c:294-302 | what a script ends with |
| `CompilerCorrect.ResolveFinds` | cyarg/compiler.c:167-179 | the slot the compiler chooses holds the innermost visible declaration when the code runs |
| `CompilerCorrect.NumberRuns` | cyarg/compiler.c:268-292 | every integer goes through its 8-, 16- or 24-bit immediate form or the constant table unchanged |
| `CompilerCorrect.ReadRuns` | cyarg/compiler.c:454-467 | reading a variable pushes its value, or fails where the program fails |
| `CompilerCorrect.WriteRuns` | cyarg/compiler.c:469-499 | writing one changes it and leaves the value on the stack |
| `CompilerCorrect.JumpRuns` | cyarg/vm.c:1281-1295 | a patched jump goes exactly as far as was patched in |
| `CompilerCorrect.OperatorRuns` | cyarg/compiler.c:414-438 | the operators compiled to two opcodes are the negations of the opposite ones |
| `CompilerCorrect.AndRuns` | cyarg/compiler.c:382-389 | `and` evaluates its right operand exactly if the left one is true |
| `CompilerCorrect.OrRuns` | cyarg/compiler.c:391-400 | `or` exactly if it is false |
| `CompilerCorrect.ExprRuns` | cyarg/compiler.c:774-780 | the code of an expression leaves its value one above the stack, with the same changes to variables, or fails where it fails |
| `CompilerCorrect.InitRuns` | cyarg/compiler.c:806-824 | a new cell ends up with the value of its initialiser, evaluated while the variable is not yet visible |
| `CompilerCorrect.DeclsRun` | cyarg/compiler.c:1138-1144 | after every declaration the stack holds exactly the variables in scope |
| `CompilerCorrect.PopsRun` | cyarg/compiler.c:845-860 | leaving a scope pops exactly its variables |
| `CompilerCorrect.StmtRuns` | cyarg/compiler.c:1069-1136 | the code of a statement does what the statement means, and while the statement loops the code runs on |
| `CompilerCorrect.IfRuns` | cyarg/compiler.c:868-882 | with the two forward jumps of `if` |
| `CompilerCorrect.WhileRuns` | cyarg/compiler.c:919-930 | with the exit and the jump back of `while` |
| `CompilerCorrect.LoopRuns` | cyarg/compiler.c:966-1004 | with the jumps of `for` around its step, with or without condition and step |
| `CompilerCorrect.ScriptRuns` | cyarg/compiler.c:1164-1214 | whatever a script does within a number of rounds, its code does: same prints, same globals, same failure |
| `CompilerCorrect.StopsWithTheScript` | cyarg/vm.c:657-802 | conversely, when the machine has stopped the script has ended in the same way, and the machine never gets stuck |
| `CompilerCorrect.DivergesTogether` | cyarg/vm.c:657-802 | the code runs forever if and only if the script does |
| `Compiler.PatchAdds` | cyarg/compiler.c:311-321 | patching turns a place-holder into a jump over everything emitted since, or reports that it is too far |
| `Compiler.Compiler.constructor` | cyarg/compiler.c:64-95 | a script starts with one local in slot 0 and no code |
| `Compiler.Compiler.EmitLoop` | cyarg/compiler.c:152-160 | emits a jump back to the start of the loop, or reports that it is too large |
| `Compiler.Compiler.EmitJump` | cyarg/compiler.c:304-309 | emits a place-holder and says where it is |
| `Compiler.Compiler.PatchJump` | cyarg/compiler.c:311-321 | overwrites the two bytes of a place-holder in place |
| `Compiler.Compiler.ResolveLocal` | cyarg/compiler.c:167-179 | the innermost local, with an error exactly if it is still being initialised |
| `Compiler.Compiler.AddLocal` | cyarg/compiler.c:181-191 | one more local, or an error when all 256 slots are taken |
| `Compiler.Compiler.AddConstant` | cyarg/chunk.c:31-43 | an equal constant is reused, a new one appended |
| `Compiler.Compiler.MakeConstant` | cyarg/compiler.c:230-239 | the index of a constant, with an error exactly if it does not fit a byte |
| `Compiler.Compiler.DeclareVariable` | cyarg/compiler.c:327-343 | an error exactly if the scope has the name already or is full |
| `Compiler.Compiler.EmitImmediateConstant` | cyarg/compiler.c:268-292 | emits the shortest immediate form |
| `Compiler.Compiler.GenerateAnd` | cyarg/compiler.c:382-389 | emits the code of `and`, and an error exactly if it has none |
| `Compiler.Compiler.GenerateOr` | cyarg/compiler.c:391-400 | the same for `or`, patching a jump over a jump |
| `Compiler.Compiler.GenerateAssignment` | cyarg/compiler.c:469-499 | resolves the name before the value is compiled, stores after |
| `Compiler.Compiler.GenerateExpr` | cyarg/compiler.c:774-780 | walking the chain emits the code of the whole expression |
| `Compiler.Compiler.GenerateVarDeclaration` | cyarg/compiler.c:806-824 | emits a declaration and brings the variable into scope |
| `Compiler.Compiler.EndScope` | cyarg/compiler.c:845-860 | pops exactly the variables of the scope that ends |
| `Compiler.Compiler.GenerateIf` | cyarg/compiler.c:868-882 | emits the code of `if` with both jumps patched |
| `Compiler.Compiler.GenerateWhile` | cyarg/compiler.c:919-930 | emits the code of `while` |
| `Compiler.Compiler.GenerateFor` | cyarg/compiler.c:966-1004 | emits the code of `for`, scope included |
| `Compiler.Compiler.GenerateLoop` | cyarg/compiler.c:972-1001 | condition, step and body with their three jumps |
| `Compiler.Compiler.GenerateStmt` | cyarg/compiler.c:1069-1136 | emits any statement and leaves the scope as it was |
| `Compiler.Compiler.Generate` | cyarg/compiler.c:1138-1144 | emits a list of declarations, and an error exactly if one of them has no code |
| `Compiler.Compile` | cyarg/compiler.c:1164-1214 | gives a program exactly when no error was reported, and it is the script's |
| `Closures.ResolvesUpvalue` | cyarg/compiler.c:213-228 | a name is found in the functions around exactly when it is a variable there; the upvalue stands for the innermost one, which is noted as captured, and nothing else changes |
| `Closures.MentionCorrect` | cyarg/compiler.c:454-467 | a mention reaches the variable that lexical scope says, local, captured or global |
| `Closures.ResolutionKeeps` | cyarg/compiler.c:193-228 | upvalues only ever refer to slots and upvalues that the function around has |
| `Closures.EndScopeDrops` | cyarg/compiler.c:845-857 | the end of a scope closes the captured variables and pops the others, the last one first |
| `Closures.CapturesMade` | cyarg/vm.c:1326-1339 | a new closure holds the variables that the tables of its function describe |
| `Closures.FunctionCorrect` | cyarg/compiler.c:884-907 | a function around another is left with the captures that the inner one made |
| `Closures.ItemsCorrect` | cyarg/compiler.c:193-228 | the code of any declarations, in any nesting, uses, captures and drops exactly the variables of lexical scope |
| `Closures.ScriptCorrect` | cyarg/compiler.c:845-907 | for every program with nested functions: each mention reaches the innermost variable of the name, and a variable is closed at the end of its scope if a function inside has used it, and popped otherwise |
| `ClosureLaws.OwnUse` | cyarg/compiler.c:845-857 | `{ var x; x; }` in any surroundings: the new variable is used, and popped |
| `ClosureLaws.UseInside` | cyarg/compiler.c:193-228 | `{ var x; fun f() { x; } }`: the variable is closed and the function popped |
| `ClosureLaws.UseOfItself` | cyarg/compiler.c:884-907 | `{ fun f() { f; } }`: a function may use itself, and is then closed |
| `ClosureLaws.Hidden` | cyarg/compiler.c:167-179 | an inner variable hides the outer one of its name, to the end of its block |
| `ClosureLaws.ParameterUse` | cyarg/compiler.c:884-907 | a parameter hides everything of its name |
| `ClosureLaws.GlobalUse` | cyarg/compiler.c:454-467 | what nobody has declared is taken for a global |
| `ClosureLaws.OwnUseCode` | cyarg/compiler.c:845-857 | the operations of the first of these as a script |
| `ClosureLaws.UseInsideCode` | cyarg/compiler.c:193-228 | of the second: slot 1 is captured, upvalue 0 is read, the variable is closed |
| `ClosureLaws.DeclaredTwice` | cyarg/compiler.c:327-343 | a name declared twice in a block is an error, in a block within it is none |
| `ClosureLaws.TableLimits` | cyarg/compiler.c:181-211 | there is room for 256 locals and 256 upvalues |
| `ClosureRuns.CapturesRun` | cyarg/vm.c:1326-1339 | a new closure captures slots of the running frame and is passed upvalues of the running closure, and then holds the variables that its tables describe |
| `ClosureRuns.CodeRuns` | cyarg/vm.c:905-931 | code that is in order is a legal run of operations on stack and upvalues, calls and returns included, and reads the variables of its trace |
| `ClosureOrder.ItemsInOrder` | cyarg/compiler.c:845-857 | compiled declarations are in order: no captured variable is popped, and what a function captures are slots of the frame around |
| `ClosureOrder.ScriptReplays` | cyarg/compiler.c:884-907 | for every program with nested functions, the operations of its code are a legal run, and the variables that they read are, one by one, those of lexical scope |
| `ClosureOrder.ReplayScript` | cyarg/routine.c:177-203 | that run on a routine with its segmented stack and sorted upvalues ends with what plain sharing says |
| `FunctionCompilers.FunctionCompiler.constructor` | cyarg/compiler.c:64-95 | a compiler for one more function inside the others |
| `FunctionCompilers.FunctionCompiler.AddUpvalue` | cyarg/compiler.c:193-211 | the same capture is listed once; an error when all 256 are taken |
| `FunctionCompilers.FunctionCompiler.ResolveUpvalue` | cyarg/compiler.c:213-228 | changes the tables of this function and of those around as the model says |
| `FunctionCompilers.FunctionCompiler.EndScope` | cyarg/compiler.c:845-857 | takes the locals of the scope off and emits what ends them |
| `Interpreter.Interpreter.constructor` | cyarg/vm.c:244-261 | the script's frame, with its function in slot 0 |
| `Interpreter.Interpreter.PushLiteral` | cyarg/vm.c:802-829 | constants and immediate numbers, signs included |
| `Interpreter.Interpreter.Local` | cyarg/vm.c:837-853 | reading and writing slots of the frame |
| `Interpreter.Interpreter.GlobalVariable` | cyarg/vm.c:854-895 | globals, with the failures for undefined ones |
| `Interpreter.Interpreter.JumpOrReturn` | cyarg/vm.c:1281-1295 | moves the instruction pointer |
| `Interpreter.Interpreter.Operator` | cyarg/vm.c:1030-1191 | takes two operands and pushes the result, or fails and leaves them; what the results are is in the rows of `ScriptLaws` |
| `Interpreter.Interpreter.Round` | cyarg/vm.c:791-801 | one round of the loop on the segmented stack is one step of the machine |
| `Interpreter.Interpret` | cyarg/vm.c:657-802 | so many rounds are so many steps |
| `Script.CompileAndRun` | cyarg/compiler.c:1164-1214 | compiling and running a script is so many steps of its code; when the machine has stopped, it has printed, stored or failed as the script means; `ScriptLaws` says what that is |
| `Script.EnoughRounds` | cyarg/vm.c:657-802 | for every script that ends there is a number of rounds from which on the machine has ended as the script does, under every bound on its loops |
| `ScriptLaws.SameLiterals` | cyarg/vm.c:1030-1051 | the code of `print a == b`, for any two literals, runs to its end and prints true exactly when they are the same, and that of `!=` when they are not |
| `ScriptLaws.OnlyNumbers` | cyarg/vm.c:1030-1191 | every other operator fails unless both literals are numbers |
| `ScriptLaws.Comparisons` | cyarg/vm.c:1030-1067 | the four comparisons of any two numbers, run |
| `ScriptLaws.SumsAndProducts` | cyarg/vm.c:1068-1190 | their sum, difference and product, run, of any size |
| `ScriptLaws.Quotients` | cyarg/vm.c:1130-1191 | quotient and remainder, by the equation that they solve; a zero divisor fails |
| `ScriptLaws.Grouped` | cyarg/compiler.c:774-780 | operators of a chain apply from the left, groupings first |
| `ScriptLaws.UnaryOperators` | cyarg/vm.c:1192-1213 | `!` of every literal, and `-`, which fails on all but numbers |
| `ScriptLaws.AndOr` | cyarg/compiler.c:382-400 | `and` and `or` of any two literals: `nil` and `false` count as false, and nothing else does |
| `ScriptLaws.Branches` | cyarg/compiler.c:868-882 | `if` on every literal, with an else branch and without |
| `ScriptLaws.InOrder` | cyarg/vm.c:1229-1235 | statements print in order, and what is printed stays when a later one fails |
| `ScriptLaws.Assignments` | cyarg/compiler.c:469-499 | an assignment has the value that the variable then has, globally and in a block |
| `ScriptLaws.Undefined` | cyarg/vm.c:854-895 | a variable without an initialiser is nil; an undeclared one can be neither read nor assigned |
| `ScriptLaws.SkippedOperand` | cyarg/compiler.c:382-400 | the assignment in the right operand of `and` and `or` happens exactly if that operand is the value |
| `ScriptLaws.Shadowed` | cyarg/compiler.c:845-860 | a variable of a block hides the one outside, which is itself again behind the block |
| `ScriptLaws.CountsDown` | cyarg/compiler.c:919-930 | for every `n`, the code of a `while` loop that counts down from `n` prints just that and ends |
| `ScriptLaws.CountsUp` | cyarg/compiler.c:966-1004 | for every `n`, that of a `for` loop up to `n` |
| `Routines.Routine.constructor` | cyarg/routine.c:21-53 | an empty stack with one slice |
| `Routines.Routine.AddSlice` | cyarg/routine.c:55-77 | adds 64 slots; every slot there was stays the same cell |
| `Routines.Routine.Push` | cyarg/routine.c:325-341 | a new variable on top, growing when the last slice is full |
| `Routines.Routine.Pop` | cyarg/routine.c:349-355 | the top value, and one slot less |
| `Routines.Routine.Peek` | cyarg/routine.c:367-377 | the value at a distance from the top |
| `Routines.Routine.FrameSlot` | cyarg/routine.c:249-253 | the cell of a slot counted from the frame |
| `Routines.Routine.SetSlot` | cyarg/vm.c:837-848 | assigns to the variable of a slot, whoever else holds it |
| `Routines.Routine.FindUpvalue` | cyarg/vm.c:372-384 | the place of a slot in the sorted list of open upvalues |
| `Routines.Routine.InsertUpvalue` | cyarg/vm.c:386-391 | linking in keeps the list strictly descending |
| `Routines.Routine.CaptureUpvalue` | cyarg/vm.c:372-394 | captures the variable of the slot, with one open upvalue for each slot |
| `Routines.Routine.GetUpvalue` | cyarg/vm.c:913-917 | reads the captured variable, open or closed |
| `Routines.Routine.SetUpvalue` | cyarg/vm.c:918-931 | writes the captured variable, open or closed |
| `Routines.Routine.CloseFirst` | cyarg/routine.c:179-182 | moving a value into its upvalue changes no variable |
| `Routines.Routine.CloseUpvalues` | cyarg/routine.c:177-184 | closes exactly the upvalues at or above a slot |
| `Routines.Routine.OpCloseUpvalues` | cyarg/routine.c:186-189 | leaving a scope with a captured variable |
| `Routines.Routine.OpReturn` | cyarg/routine.c:191-203 | the frame goes, captured variables stay, the result is pushed |
| `Routines.DescendingInsert` | cyarg/vm.c:372-394 | a list with one more slot in its place is still strictly descending |
| `SharedVariables.CapturedIsHeld` | cyarg/vm.c:1326-1339 | a slot with an open upvalue is one whose variable a closure holds |
| `SharedVariables.Perform` | cyarg/vm.c:1326-1341 | each operation on the stack and its upvalues does what it does on plainly shared variables, whose laws are in `SharingLaws` |
| `SharedVariables.Replay` | cyarg/routine.c:177-203 | so does any run of them, however variables are captured, closed and returned from |
| `SharingLaws.NothingYet` | cyarg/routine.c:21-53 | before any operation the stack is empty |
| `SharingLaws.PushLaw` | cyarg/routine.c:325-341 | after any run, a push adds its value to the stack that is left |
| `SharingLaws.DropLaw` | cyarg/routine.c:349-355 | popping and closing take the top away |
| `SharingLaws.ReturnLaw` | cyarg/routine.c:191-203 | a return takes the frame away and pushes the result |
| `SharingLaws.ReadLaw` | cyarg/vm.c:837-842 | reading a slot pushes what is in it |
| `SharingLaws.WriteLaw` | cyarg/vm.c:843-848 | writing one changes that slot and no other |
| `SharingLaws.OpenLaw` | cyarg/vm.c:913-931 | while its slot is there, a captured variable is read as the slot is, whatever was written to either in between |
| `SharingLaws.ReadsSomething` | cyarg/vm.c:913-917 | every upvalue that was captured can be read |
| `SharingLaws.WrittenLaw` | cyarg/vm.c:918-931 | what was written to an upvalue is read from it |
| `SharingLaws.KeepsLaw` | cyarg/routine.c:177-203 | without a write it keeps its value on every run, whatever is closed or returned from |
| `SharingLaws.SharedLaw` | cyarg/vm.c:372-394 | two captures of one slot are one variable for ever |
| `SharingLaws.ApartLaw` | cyarg/vm.c:372-394 | captures of two slots are two |
| `SharingLaws.WriteThenRead` | cyarg/routine.c:177-203 | a value written through an upvalue is read through it after any run without a write |
| `SharingLaws.SlotThenRead` | cyarg/routine.c:177-203 | and so is one written to its slot while that was there |
| `SharingLaws.OpenWriteLaw` | cyarg/vm.c:918-931 | a write through an upvalue changes its slot, while there is one, and no other |
| `SharingLaws.ClosedWriteLaw` | cyarg/vm.c:918-931 | and nothing on the stack when there is none |
| `SharingLaws.ReadCapture` | cyarg/vm.c:913-917 | a run on a routine: reading through a capture pushes what the slot holds |
| `PackFormat.ReadBack` | cyarg/pack.c:302-317 | two-, three- and four-byte numbers read back as written if and only if they fit |
| `PackFormat.StringBackIff` | cyarg/pack_load.c:71-76 | a string comes back whole if and only if it holds no zero byte, and otherwise shorter |
| `PackFormat.CatAt` | cyarg/pack.c:277-356 | every part of a body is found at its offset |
| `PackFormat.PackageBegins` | cyarg/pack_load.c:16 | the first eight bytes of every package |
| `PackLaws.LowByteFirst` | cyarg/pack.c:302-317 | numbers of two, three and four bytes are written and read low byte first |
| `PackLaws.HeaderBytes` | cyarg/pack_format.h:74-84 | every field of the header at its place, the length of the rest included |
| `PackLaws.SectionsInOrder` | cyarg/pack.c:274-354 | doubles, addresses, functions with their constants, integers, strings, code |
| `PackLoad.ChunkFields` | cyarg/pack.c:291-309 | the four numbers at the head of a function |
| `PackLaws.ConstantBytes` | cyarg/pack.c:310-317 | four bytes for each constant: its type, from 0 for a string to 4 for an address, and its offset or index; and what is found there is the constant |
| `PackLaws.IntegerBytes` | cyarg/pack.c:325-332 | the bytes of an integer, digit by digit |
| `PackLaws.StringBytes` | cyarg/pack.c:336-342 | those of a string, and of code |
| `Pack.FlatFiles.AddString` | cyarg/pack.c:121-134 | a string is listed once |
| `Pack.FlatFiles.ListConstants` | cyarg/pack.c:101-143 | every constant gets the index of its entry in the file of its type, and nothing else is listed |
| `Pack.FlatFiles.FlattenConstants` | cyarg/pack.c:89-155 | afterwards the files represent the function and everything nested in it, its code is counted once, and nothing else has been added |
| `Pack.StillRepresents` | cyarg/pack.c:145-154 | flattening one function disturbs no other |
| `Pack.FlatFiles.CalcStringAndIntOffsets` | cyarg/pack.c:169-205 | every string and integer constant gets the offset of its entry, duplicates included |
| `Pack.FlatFiles.WriteChunk` | cyarg/pack.c:291-322 | the header and constants of a function, the script's arity written as zero |
| `Pack.FlatFiles.BodyLength` | cyarg/pack.c:256-272 | adding up the totals of the files gives the length of the body, as long as the counts fit their two bytes |
| `Pack.FlatFiles.WritePackage` | cyarg/pack.c:244-354 | the bytes are the header and the sections in order; `PackLaws` says what is at each place |
| `Pack.PackScript` | cyarg/pack.c:34-87 | a package of any script: its files represent it, with strings listed once and offsets in place, and hold exactly as many entries of each type as the tree of functions has constants |
| `PackLoad.FitsIff` | cyarg/pack_load.c:19-97 | what is asked of a package is exactly that every field reads back as it was written, and that there are no more functions than the loader has places for |
| `PackLoad.HeaderLength` | cyarg/pack_load.c:35 | the length in the header is that of the rest of the buffer, which the loader insists on |
| `PackLoad.PartFound` | cyarg/pack_load.c:40-97 | the loader's cursor finds every part the writer wrote |
| `PackLoad.IntOffset` | cyarg/pack_load.c:154-163 | the offsets assigned to integers count from where the loader finds the first |
| `PackLoad.StringOffset` | cyarg/pack_load.c:147-153 | the same for strings |
| `PackLoad.ReadChunks` | cyarg/pack_load.c:58-62 | the chunks begin where they were written |
| `PackLoad.SkipInts` | cyarg/pack_load.c:65-69 | past the integers, by their own lengths |
| `PackLoad.SkipStrings` | cyarg/pack_load.c:72-76 | past the strings, by the zeros that end them |
| `PackLoad.LoadCode` | cyarg/pack_load.c:88-97 | every function gets its code, arity and upvalue count |
| `PackLoad.ReadConstant` | cyarg/pack_load.c:146-191 | every constant comes back with its value |
| `PackLoad.LoadConstants` | cyarg/pack_load.c:135-194 | and every function with all of its constants |
| `PackLoad.LoadedMatches` | cyarg/pack_load.c:135-194 | the loaded functions are the tree of functions that was packed |
| `PackLoad.LoadPackageFromBuffer` | cyarg/pack_load.c:19-213 | loads it, or nothing exactly when the magic number or the version is wrong |
| `PackLoad.PackAndLoad` | cyarg/pack.c:34-87 | packing and loading gives the same tree for every script whose files fit the format |
| `PackLaws.LoadAgain` | cyarg/pack.c:34-87 | the tree of functions that the loaded objects hold, read off field by field, is the script's |
| `PackLaws.PackHi` | cyarg/pack.c:34-87 | a run: the package of a script with one string constant, byte for byte, and what is loaded from it |
| `Channel.Channel.constructor` | cyarg/channel.c:34-57 | a new channel is empty |
| `Channel.Channel.ReadCursor` | cyarg/channel.c:68-73 | the place of the oldest value |
| `Channel.Channel.Send` | cyarg/channel.c:119-124 | appends a value |
| `Channel.Channel.Collect` | cyarg/channel.c:132-143 | takes the oldest value |
| `Channel.Channel.Share` | cyarg/channel.c:160-181 | appends a value, dropping exactly the oldest when full and reporting it |
| `Channel.Channel.Peek` | cyarg/channel.c:183-191 | the oldest value or nil |
| `Channel.RunOrderly` | cyarg/channel.c:112-158 | in every state of every run of one sender and one receiver, what was sent is what was received and what is in between, in order, which is never more than the capacity; a wait test that has succeeded stays true |
| `Channel.BothRestAtTheEnd` | cyarg/channel.c:112-158 | both wait for ever only when everything has been received: there is no deadlock |
| `Channel.FairSchedulesDeliver` | cyarg/channel.c:112-158 | under every schedule that gives both a turn often enough, everything there is to send is received |
| `Channel.System.Step` | cyarg/channel.c:112-158 | a step on the ring buffer is a step of the queue |
| `Channel.Interleave` | cyarg/channel.c:112-158 | a run on the ring buffer is the run of the queue, under any schedule |
| `Channel.RunCounts` | cyarg/channel.c:112-158 | with one sender and one receiver, the count of the channel is that of the queue on every schedule |
| `Channel.TwoSenders` | cyarg/channel.c:112-125 | two senders may both find the last place free, and the count exceeds the buffer |
| `Channel.TwoReceivers` | cyarg/channel.c:132-158 | two receivers may both find the last value, and the count falls below zero |
| `Channel.BoundedIffOneEach` | cyarg/channel.c:112-158 | the count stays within the buffer on every run if and only if there is at most one sender, and at most one receiver unless nobody sends |

## Left out

- BigInt.Mul: the result is not an operand; the source writes it before it has read them.
- BigIntDiv.Div: the denominator is not zero, which the source asserts; the remainder is another number than the numerator, as it is for every caller.
- Decimal.ToS: the buffer is large enough, which the source asserts.
- Interpreter.Interpreter.Operator: integers have no bound here, and a zero divisor is an error; the source applies the operators of IntOps.BinaryIntOp, which agree with these while the result fits in 254 digits, and stops on a zero divisor with an assertion.
- Language.Meaning: integers have no bound here, while the interpreter's stop at 254 digits; a division by zero, which the source stops with an assertion, is a run-time error.
- Parser.Parser.ParsePrecedence: chains are values and not linked nodes, and after the first error only the fact of an error is modelled; the source goes on to report more.
- Grammar.ParsesExactly: other tokens than those of the subset (calls, indexing, types, bit operators) begin or continue no expression here; and a leading `*`, which the rules table lets `unaryPlace` read as a dereference, is a syntax error.
- Grammar.ParsedIsChain: the same tokens and the leading `*` are syntax errors.
- Parser.Parser.ParsePrefix: the prefix rule of `*` reports an error.
- Interpreter.Interpreter.JumpOrReturn: the script has one frame, so a return ends it; frames and results of calls are in Routines.Routine.OpReturn.
- Parser.Parser.Advance: the scanner's error tokens, which the source reports and skips.
- Heap.Vm.BlackenObject: syntax trees, types and packed storage are one kind of object with a given list of references; tables inside objects are the sequence of their entries.
- Mutator.Observe: objects are strings and cells; arithmetic and calls are left out.
- Pack.FlatFiles.WritePackage: the line table and the function names of a package.
- PackLoad.LoadPackageFromBuffer: the line table and the function names of a package.
- Closures.ScriptCorrect: names only. Instructions that push and pop values in between, types and classes are left out; a closure is called where it is made, once.
- Channel.BoundedIffOneEach: counts only; which values a crowd of senders and receivers loses is not said.
- PackLoad.PackAndLoad: files that do not fit are not loaded here; PackLoad.FitsIff says which those are. The line table and the function names are left out, the padding digit of an odd-length integer is written as zero, and the digits are copied one by one and not with the spare capacity behind them.
- Integers of other widths, doubles, strings, structs, arrays, maps, pointers, classes, functions and coroutines in the language whose compiled code is run.
- Typed cells: variables of the subset are untyped, so assignments are never rejected for their type.
- The flags that tell where an integer is stored and whether it was a literal, and the conversions of integers to machine words.
- The hash is a 32-bit function of the characters, and the mask by a power-of-two capacity is a remainder.
- Cell tables, which repeat the table with another value type.
- Resetting a routine after a run-time error, which forgets the list of open upvalues without closing them; and pinned routines, whose stack may not grow.
- Objects are freed by leaving the heap's list; what each kind of object frees, the marks on static types and the failure of allocation are not modelled.
- Channels that share while a sender waits, and the semaphore build.
- The XIP library, packed containers and type layout, the scanner, statements in the parser, and everything that does input or output.
