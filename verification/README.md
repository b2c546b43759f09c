# Bilbo, verified

Bilbo recovers the layout of a Rust type from the program's own DWARF as a finite,
possibly cyclic plan (`Ty`), and then fills memory of that type from JSON with one of two
backends: an interpreter that binds a parsed tree, and a compiled parser that walks the
input bytes straight into memory. This project models both backends, the recovery of the
plan, and the cache in between, and proves that they do what they are for.

## What is proved

* **When the backends agree** (`Agreement`, `Jit`, `Interp`, `JsonParser`, `Binding`,
  `Domain`). For every type without maps and unknown parts, and every spelling of a JSON
  document with any whitespace, trailing commas and delimited suffix, the compiled parser
  stops where the reference parser stops, and what the two leave in memory decodes to one
  value exactly if the strings read are alike. Neither writes outside the destination. The
  result goes by induction over the document, following back-edges. They do not agree on
  everything, and where they part is stated with an input and a condition on the document:
  * strings: the reference parser passes `\b`, `\f`, `\r` and `\u` through undecoded, and the
    compiled one takes a character to be a byte (`TextsAlike`, exact);
  * integers: beyond 128 bits one wraps and the other panics (`IntegersFit`, exact; it asks
    nothing of floats and of what is skipped);
  * repeated keys: one takes the first value, the other is left with the last and owns no
    longer what the first one allocated (`RepeatsAgree`, exact for a struct);
  * escaped keys: one decodes them and the other does not (`EscapedKeySpells`).
* **What the tokens mean** is stated from the values themselves: the digits of a number
  (`Numerals`), every spelling of a text (`Unescape`), the bits of a character (`Utf8`), the
  characters of the grammar (`Syntax`), the bytes of a value of each type (`Values`); and
  `Agreement` takes numerals, texts, `true`, `false` and `null` from the input to the bytes.
* **The pieces the compiled parser is made of** each meet an independent definition: value
  skipping by one depth counter (`Scan`), string scanning (`Scan`), unescaping with
  surrogates (`Unescape`), integers modulo 2^64 (`Ints`), overlapping copies and zeroing
  (`Copy`), key dispatch (`Dispatch`), vector growth (`Jit`).
* **Classification** (`Classify`) of a cyclic DIE graph ends, ties every knot it hands out,
  and the plan unfolds to the graph at every depth. `CollectCells` finds the reachable cells,
  and emission never looks one up in vain.
* **The definition index** (`DefIndex`) built with a stack is the one the tree defines, and
  redirecting a stub settles at once.
* **The cache** (`Cache`) is safe in every interleaving of any number of threads, classifies
  each type once, never deadlocks, and every call ends, even if a classification panics and
  poisons a lock.
* **Locals** (`Hunt`, `Location`): the early-exit walk finds what the flat rule says, and
  SLEB128 operands decode to what was encoded.

## How it is modelled

Memory is a map from blocks to cells, and a cell is uninitialised, a byte, or a byte of a
stored pointer (`Memory`). `Holds` says that a representation of a value lies at a pointer;
memory holds at most one (`Values`), so reading memory at a type is a function, `Decode`.
Comparing the backends through it leaves out what may differ: block numbers, capacities,
padding. A document (`Docs`) is a concrete syntax tree: every whitespace byte, every way to
spell a string, and every optional comma is in it, and `Print` gives its bytes. `Reads` says
which document means which value to the compiled parser; `Binds` says it of a tree and the
interpreter. `Throughout` asks something of every part of a document that is read, at the
type it is read at, and nothing of what is skipped. A plan must be `Sound` (`Layout`): parts
that are written do not overlap, integers are of a width Rust has, elements are not empty,
and a niche is one that no payload uses. The niches of boxes, owned and borrowed strings,
vectors, characters and booleans, of the structs they are fields of, of back-edges to them,
and of options in options are proved to be such.

Objects that the source changes in place are classes or methods with loops: the heap, the
cursors, the emitted blocks, the classifier with its memo, the cell collector, the hunt, the
index walk. The blocks the emitter produces are written as methods, a block's parameters
being a loop's variables; for key dispatch the emitter itself and its branch program are
modelled. Where a method is specified by a function, lemmas about that function follow.

Where the code and its comments differ, the code is followed: the comment on `rt_skip` says
it is only for unknown keys, but unit fields use it too.

## Model

| member | source | states |
|---|---|---|
| Agreement.BackendsAgree | crates/bilbo-json/src/lib.rs:28-58 | on every input whose keys both find alike and whose integers fit 128 bits, the two backends, run into two memories, stop at one place, write only their destinations, and leave memories that decode to one value if and only if the strings and characters that are read are alike |
| Agreement.FromJson | crates/bilbo-json/src/lib.rs:39-44 | parsing then interpreting leaves the value the tree means, byte by byte in its place, stops at the document's end, and the value owns every new block |
| Agreement.FromJsonJit | crates/bilbo-json/src/lib.rs:53-58 | the compiled parser leaves the value the document means and stops at its end, whatever surrounds it; unless a field is repeated, the value owns every new block |
| Agreement.InputInPlace | crates/bilbo-json/src/json.rs:53-58 | printing a document after whitespace puts it, position by position, where the parsers look for it |
| Agreement.IntegersArrive | crates/bilbo-json/src/lib.rs:28-58 | of a numeral with any sign and leading zeros, byte k that either backend leaves is the number's digit of weight 256^k, modulo the width |
| Agreement.BoolsArrive | crates/bilbo-json/src/lib.rs:28-58 | of `true` and `false` both backends leave the byte 1 and 0 |
| Agreement.NullsArrive | crates/bilbo-json/src/lib.rs:28-58 | of `null` at any option type both backends leave the discriminant of `None`, byte by byte |
| Agreement.TextsArrive | crates/bilbo-json/src/jit.rs:677-691 | of a text in quotes, each character spelled in any way there is, the compiled parser leaves the UTF-8, and the words that lead to it |
| Binding.ReadingsAgree | crates/bilbo-json/src/jit.rs:636-776 | when the compiled parser reads a document at a type and the interpreter binds its tree, the values are the same if and only if the strings read are alike |
| Binding.CharsAgree | crates/bilbo-json/src/jit.rs:670-676 | the first raw byte of a string is its first character exactly if it starts with ASCII, an escaped backslash, or U+00C3 |
| Binding.FindIsLookup | crates/bilbo-json/src/json.rs:43-50 | looking a key up in the tree finds the tree of what stands under its raw bytes |
| Binding.LookupIs | crates/bilbo-json/src/json.rs:43-50 | a first lookup finds the first member with the key, and a last one the last |
| Binding.OnceIs | crates/bilbo-json/src/jit.rs:1092-1098 | a key is not repeated exactly if no two members have it |
| Domain.Accepted | crates/bilbo-json/src/interp.rs:17-162 | of what the compiled parser reads, the interpreter accepts exactly that in which no integer read at an integer type is beyond the 128 bits of its parse |
| Domain.SameValueBound | crates/bilbo-json/src/interp.rs:17-162 | and it binds the value the compiled parser leaves exactly if the strings are alike as well |
| Domain.LongIntegerRefused | crates/bilbo-json/src/json.rs:16-30 | a 40-digit integer is read by one and bound to nothing by the other |
| Domain.AccentedCharDiffers | crates/bilbo-json/src/jit.rs:670-676 | the character `é` is left as its first byte by one and as itself by the other |
| Domain.KeyOrderIsFree | crates/bilbo-json/src/jit.rs:926-1117 | permuting the known members, if each key occurs once, and mixing in unknown ones, repeated or not, changes nothing that is read |
| Domain.AbsentOrNull | crates/bilbo-json/src/jit.rs:936-959 | an option field is `None` exactly when its key is absent or its last value null |
| Domain.NullIsNone | crates/bilbo-json/src/jit.rs:936-959 | of `{"a":null}` both backends have `None`, at any option type |
| Domain.RepeatsAgree | crates/bilbo-json/src/interp.rs:35-49 | with repeated keys the backends agree on a struct if and only if each field's first value reads as what its last value left |
| Domain.LastWriteWins | crates/bilbo-json/src/jit.rs:1092-1098 | of `{"a":1,"a":2}` one leaves 2 and the other 1 |
| Domain.EscapedKeySpells | crates/bilbo-json/src/jit.rs:979-1000 | a key is taken for a name by both or neither exactly if it has no escapes, or neither its bytes nor its decoding is the name |
| Domain.EscapedKeyMissed | crates/bilbo-json/src/jit.rs:979-1000 | a field `boo` spelled `"\boo"` is found by one and skipped by the other |
| Numerals.IntegerIsSpelled | crates/bilbo-json/src/json.rs:16-30 | a token is read as an integer exactly if it is a sign the type takes, zeros, and the decimal digits of that number |
| Numerals.SpellingSpells | crates/bilbo-json/src/json.rs:16-30 | every number has a token: its digits, behind a minus if it is negative |
| Numerals.NoUnsignedMinus | crates/bilbo-json/src/json.rs:16-23 | an unsigned type takes no token with a minus |
| Jit.Parse | crates/bilbo-json/src/jit.rs:636-776 | the code for any type leaves the cursor right behind the document and the value in place, writing nowhere else; of the new blocks the value owns each once, except those of values that were overwritten, and there are none unless a field is repeated |
| Jit.ParseStruct | crates/bilbo-json/src/jit.rs:926-1117 | every field takes the last value under its key in any key order, absent options are `None`, unknown keys are skipped |
| Jit.ParseMember | crates/bilbo-json/src/jit.rs:979-1113 | one turn of the key loop changes only the field dispatched to, or none; the blocks the field owned before are lost |
| Jit.DefaultOptions | crates/bilbo-json/src/jit.rs:936-959 | before any key is read exactly the literal option fields hold `None` |
| Jit.ParseTuple | crates/bilbo-json/src/jit.rs:903-924 | the unrolled positional parse fills every field and ends behind the bracket, trailing comma or not |
| Jit.ParseVec | crates/bilbo-json/src/jit.rs:1122-1247 | elements survive every growth, capacity is 0 or 4 times a power of two and at most max(4, 2 len - 2), and all growths move fewer than 2 len elements |
| Jit.Grow | crates/bilbo-json/src/jit.rs:1181-1213 | growth in 64-bit arithmetic moves the buffer and keeps every element a value |
| Jit.ParseBox | crates/bilbo-json/src/jit.rs:703-712 | the payload is built in a block of its own and the pointer to it stored |
| Jit.ParseOpt | crates/bilbo-json/src/jit.rs:717-752 | null gives `None` and anything else its value, for niches and tags alike, although the discriminant may overlap the payload |
| Jit.StoreNone | crates/bilbo-json/src/jit.rs:735-737 | `None` is in place, byte for byte what the interpreter writes |
| Jit.ParseStr | crates/bilbo-json/src/jit.rs:677-691 | owned and borrowed strings hold the UTF-8 of the text, with capacity and length its size |
| Jit.BuildStr | crates/bilbo-json/src/jit.rs:521-547 | the fast copy and the unescaping path give the same text, in a fresh block of exactly its size |
| Jit.ParseInt | crates/bilbo-json/src/jit.rs:652-657 | the bytes stored are those of the number the token spells, modulo the width |
| Jit.WideIntegerMissing | crates/bilbo-json/src/jit.rs:373-386 | where nothing was, a 64-bit store leaves no 16-byte integer |
| Jit.ParseFloat | crates/bilbo-json/src/jit.rs:658-669 | the bits of exactly the token are stored, demoted for the narrow type |
| Jit.RtF64v | crates/bilbo-json/src/jit.rs:1385-1398 | the scan over sign, digits, fraction and exponent ends behind the number token |
| Jit.ParseChar | crates/bilbo-json/src/jit.rs:670-676 | the byte behind the quote, widened to four |
| Interp.Run | crates/bilbo-json/src/interp.rs:17-162 | binding a tree leaves the value it means in place, an integer as the bytes of the number its token spells, writes nowhere else, and the value owns each new block once |
| Interp.RunStruct | crates/bilbo-json/src/interp.rs:35-49 | each field takes the first value under its name; an absent option is `None` |
| Interp.RunTuple | crates/bilbo-json/src/interp.rs:51-58 | fields are bound to items by position |
| Interp.RunStr | crates/bilbo-json/src/interp.rs:60-73 | the string's bytes in a block of exactly their size, and the words that point to it |
| Interp.RunVec | crates/bilbo-json/src/interp.rs:75-102 | a buffer of exactly the items, each in its slot, with capacity and length their number |
| Interp.RunBox | crates/bilbo-json/src/interp.rs:104-120 | the payload in a block of its own |
| Interp.RunOpt | crates/bilbo-json/src/interp.rs:125-150 | null gives `None`, anything else the value in both encodings |
| Build.VecGrow | crates/bilbo-json/src/jit.rs:1281-1301 | moving the buffer moves the elements and leaves what they own |
| Build.TaggedBuilt | crates/bilbo-json/src/jit.rs:741-748 | storing the tag after the payload keeps the payload, and the option is not `None` |
| Build.NicheBuilt | crates/bilbo-json/src/jit.rs:741-748 | in a niche the payload alone is the option, and it is not `None` |
| Values.HoldsOnce | crates/bilbo/src/plan.rs:45-123 | memory holds at most one value of a type at an address |
| Values.HeldLies | crates/bilbo/src/plan.rs:45-123 | how a value of each type lies in memory byte by byte, in terms of what is decoded of its parts |
| Plan.SizeReached | crates/bilbo/src/plan.rs:45-123 | a type reaches as far as the furthest of what is written of it, and no further |
| Frames.HoldsMoves | crates/bilbo-json/src/jit.rs:1281-1301 | a value stays that value when its cells are copied and its blocks kept |
| Layout.BoxNiche | crates/bilbo/src/plan.rs:85-107 | a stored pointer is never null |
| Layout.StrRefNiche | crates/bilbo/src/plan.rs:85-107 | a borrowed string's pointer is never null |
| Layout.StringNiche | crates/bilbo/src/plan.rs:85-107 | no string has a capacity above the allocator's limit |
| Layout.VecNiche | crates/bilbo/src/plan.rs:85-107 | no vector has a capacity above the allocator's limit |
| Layout.CharNiche | crates/bilbo/src/plan.rs:85-107 | no character is a number above every scalar |
| Layout.BoolNiche | crates/bilbo/src/plan.rs:85-107 | no boolean is a byte above one |
| Layout.FieldNiche | crates/bilbo/src/plan.rs:85-107 | a field's niche serves the whole struct |
| Layout.OptionNiche | crates/bilbo/src/plan.rs:85-107 | an option in an option is free to use a value that neither the inner `None` nor its payload or tag has |
| Layout.RefNiche | crates/bilbo/src/plan.rs:85-107 | a back-edge has the niches of what it leads to |
| Layout.NodeIsSound | crates/bilbo/src/plan.rs:45-123 | the plan of a recursive structure with numbers, strings, a vector, a tuple, and options tagged and in niches is one the results are about |
| Memory.Heap.Alloc | crates/bilbo-json/src/jit.rs:1255-1277 | a fresh uninitialised block, or the aligned dangling pointer for size 0 |
| Memory.Heap.Realloc | crates/bilbo-json/src/jit.rs:1281-1301 | the old contents are the front of a fresh block of the new size, the old block is gone, every other block is as it was |
| JsonParser.ParseValue | crates/bilbo-json/src/json.rs:66-95 | parsing undoes printing: the tree is the document's and the cursor stops at its end |
| JsonParser.ParseObject | crates/bilbo-json/src/json.rs:97-118 | the pairs of an object in order, trailing comma or not |
| JsonParser.ParseString | crates/bilbo-json/src/json.rs:138-160 | the text with `\n` and `\t` decoded and other escapes passed through, as well-formed UTF-8 |
| Json.SimpleIsExact | crates/bilbo-json/src/json.rs:146-152 | the reference parser recovers the text of a string if and only if its escapes are none of `\b`, `\f`, `\r` and `\u` |
| Json.OtherEscapesPassThrough | crates/bilbo-json/src/json.rs:146-152 | a carriage-return escape comes out as the letter |
| Syntax.PrintIsJson | crates/bilbo-json/src/json.rs:66-136 | how each kind of value is printed, in its own characters |
| Syntax.ItemsAreJson | crates/bilbo-json/src/json.rs:120-136 | an element is its value, and perhaps a comma, with whitespace in between |
| Syntax.MembersAreJson | crates/bilbo-json/src/json.rs:97-118 | a member is its key in quotes, a colon, its value, and perhaps a comma, with whitespace in between |
| Syntax.Sample | crates/bilbo-json/src/json.rs:120-136 | a text with whitespace and a trailing comma that is a document |
| Syntax.SyntaxIsAscii | crates/bilbo-json/src/json.rs:60-64 | which characters are whitespace, digits and punctuation |
| Syntax.NumberIsParted | crates/bilbo-json/src/jit.rs:1385-1398 | the scan takes a token for a number exactly if it is a minus or none, an integer, a fraction and an exponent |
| Scan.RtSkip | crates/bilbo-json/src/jit.rs:1323-1382 | skipping any document lands on its end, where the reference parser stops |
| Scan.SkipContainer | crates/bilbo-json/src/jit.rs:1340-1370 | one depth counter and an in-string flag find where the brackets balance |
| Scan.DocBalance | crates/bilbo-json/src/jit.rs:1340-1370 | a whole document leaves the bracket count where it was |
| Scan.RtStrscan | crates/bilbo-json/src/jit.rs:1489-1527 | on any input the first unescaped quote, the length before it, and a flag set exactly when the body has a backslash |
| Unescape.RtUnescape | crates/bilbo-json/src/jit.rs:1405-1469 | the loop computes the decoding of any bytes whose `\u` escapes are complete |
| Unescape.UnescapeIsText | crates/bilbo-json/src/jit.rs:1405-1469 | decoding a legal body gives the UTF-8 of the scalars it denotes, on which `UnescapeSpelled` rests |
| Unescape.UnescapeSpelled | crates/bilbo-json/src/jit.rs:1405-1469 | every text comes back from every spelling of it: characters as themselves, the eight two-character escapes, four hexadecimal digits in either case, surrogate pairs |
| Unescape.LoneSurrogate | crates/bilbo-json/src/jit.rs:1444-1461 | a surrogate that is not half of a pair comes out as U+FFFD |
| Unescape.OtherEscapes | crates/bilbo-json/src/jit.rs:1405-1469 | a backslash before any other character comes out as that character |
| Unescape.UnescapeShrinks | crates/bilbo-json/src/jit.rs:1411-1412 | the decoded text is never longer than the body |
| Utf8.EncodeAllInjective | crates/bilbo-json/src/jit.rs:1458-1460 | no two texts have the same encoding |
| Utf8.FirstScalarInverts | crates/bilbo-json/src/interp.rs:20-23 | the first character of encoded text is its first scalar |
| Utf8.EncodeBits | crates/bilbo-json/src/jit.rs:1458-1460 | a scalar takes as many bytes as RFC 3629 says, and the bits behind their leads spell it |
| Ints.Intval | crates/bilbo-json/src/jit.rs:550-619 | the register holds the integer modulo 2^64 and the cursor is behind the token |
| Ints.NarrowingAgrees | crates/bilbo-json/src/interp.rs:24-29 | narrowing the register and cutting the 128-bit value store the same bytes, for every integer |
| Copy.EmitCopy | crates/bilbo-json/src/jit.rs:392-455 | the destination equals the source on exactly the length, whatever it is, and no access leaves it |
| Copy.Memset0 | crates/bilbo-json/src/jit.rs:779-796 | exactly the given number of zero bytes |
| Dispatch.Emit | crates/bilbo-json/src/jit.rs:1001-1090 | for every field list, key, and memory past the key, the emitted program reaches the lowest field with the key's name, or the skip block if there is none, and loads a word only where one is left of the input |
| Dispatch.EmitSwitch | crates/bilbo-json/src/jit.rs:1001-1032 | so does the table by length with a chain for each |
| Dispatch.EmitChains | crates/bilbo-json/src/jit.rs:1033-1090 | so do the word chain and the byte chain, on either side of the eight-byte limit |
| Dispatch.WordIsEqual | crates/bilbo-json/src/jit.rs:1049-1078 | the length check and one masked word comparison are equality of names up to eight bytes |
| Dispatch.KeyEqIsEqual | crates/bilbo-json/src/jit.rs:623-632 | comparing every byte whatever the length check said is equality of names |
| Classify.ClassifyType | crates/bilbo/src/dwarf.rs:654-701 | for every closed DIE graph the plan unfolds to the graph at every depth, no cell is untied, none is tied that no body refers to, and the plan has the layout its DIE says: offsets, discriminants, names, order of tuple fields, sign and width |
| Classify.WantShaped | crates/bilbo/src/dwarf.rs:704-1016 | so has what every other reference of the graph leads to, at every depth |
| Classify.Classifier.Classify | crates/bilbo/src/dwarf.rs:654-701 | the memo is as before, earlier cells keep their bodies, and the plan means the reference, its open cells those in flight |
| Classify.AlikeUnfolds | crates/bilbo/src/dwarf.rs:694-700 | tying a knot changes no unfolding |
| Classify.AssembleUnfolds | crates/bilbo/src/dwarf.rs:747-845 | assembling a plan commutes with unfolding its parts |
| Classify.WalkCloses | crates/bilbo/src/dwarf.rs:694-700 | a cell nobody holds can be dropped and any other is tied |
| CollectCells.PlanAndCells | crates/bilbo-json/src/jit.rs:105-132 | for every closed DIE graph the plan is the type and laid out as its DIE says, every cell collected for it is tied, and every lookup made while the root or a collected body is emitted finds its cell |
| CollectCells.CellsOf | crates/bilbo-json/src/jit.rs:105-132 | the cells reachable through bodies, each once, closed under what emission looks up |
| CollectCells.Collector.Collect | crates/bilbo-json/src/jit.rs:258-284 | what is new is reachable and has its references found |
| DefIndex.Build | crates/bilbo/src/dwarf.rs:530-601 | over all units a name is in the index exactly if some unit has a structure or union by that name, not a declaration, with a member or variant part right below, and it leads to one such in the first unit that has one |
| DefIndex.RedirectIff | crates/bilbo/src/dwarf.rs:613-652 | redirected are exactly the structures and unions whose name is indexed and that are declarations, or have a size and neither member nor variant part right below |
| DefIndex.ForestWalk | crates/bilbo/src/dwarf.rs:538-592 | walking a forest closes its definitions in tree order and tells the enclosing frame of its children |
| DefIndex.RedirectSettles | crates/bilbo/src/dwarf.rs:642-652 | a redirect lands on a complete definition of the name, which is no stub, so redirecting again goes nowhere |
| Cache.AlwaysSafe | crates/bilbo/src/resolve.rs:57-109 | in every reachable state each L1 entry's key is in L2, so the hit path's lookup never fails; no key was classified twice; and no call panics unless a classification has |
| Cache.CallersAgree | crates/bilbo/src/resolve.rs:57-109 | if a site always fills one local, hits and misses return the one artifact made for its type |
| Cache.LaterCallsHit | crates/bilbo/src/resolve.rs:62-66 | once a call from a site has returned, every later one from there takes the hit path |
| Cache.NoDeadlock | crates/bilbo/src/resolve.rs:62-66 | while a call is under way some call can go on, although the hit path holds both locks, and also after a panic |
| Cache.CallsEnd | crates/bilbo/src/resolve.rs:57-109 | without new calls no run is longer than what the calls have left |
| Cache.PoisonIsFinal | crates/bilbo/src/resolve.rs:57-109 | once a panic has poisoned a lock, the table behind it is never touched again |
| Cache.Resolved.Ext | crates/bilbo/src/resolve.rs:42-51 | the first caller's artifact stays; a caller of another type gets none |
| Cache.ExtOfMany | crates/bilbo/src/resolve.rs:36-51 | however many consumers ask in any order, the first one's initialiser runs, alone, and exactly the consumers of its type get its artifact |
| Location.Sleb128 | crates/bilbo/src/dwarf.rs:441-457 | or-ing up to ten groups of seven bits, and ones above a negative last one, gives their value modulo 2^64, with the byte count |
| Location.DecodeEncoded | crates/bilbo/src/dwarf.rs:441-457 | decoding inverts encoding over all 64-bit values, whatever follows |
| Location.SlebLength | crates/bilbo/src/dwarf.rs:441-457 | how many bytes a value of a given width takes |
| Location.SlebExamples | crates/bilbo/src/dwarf.rs:441-457 | the examples of section 7.6 of the DWARF version 5 standard |
| Location.EvalAddr | crates/bilbo/src/dwarf.rs:423-439 | operation by operation: frame base, frame pointer or stack pointer plus the operand, the stack pointer itself, or no address |
| Location.EvalEncoded | crates/bilbo/src/dwarf.rs:423-439 | with an encoded operand: the register the operation names plus the operand modulo 2^64, exactly when nothing trails |
| Bits.OrAdds | crates/bilbo/src/dwarf.rs:441-457 | or-ing a number with a multiple of a higher power of two adds them |
| Bits.AndKeeps | crates/bilbo-json/src/jit.rs:1049-1078 | a mask of low ones takes the remainder |
| Hunt.LocalAtAddress | crates/bilbo/src/dwarf.rs:240-265 | the walk, its fallback and the last resort find what the flat rule says |
| Hunt.TargetIs | crates/bilbo/src/dwarf.rs:240-265 | the first `MaybeUninit` at the address, else the first local there, else the first `MaybeUninit` if all are of one type, else none |
| Hunt.LimitIs32 | crates/bilbo/src/dwarf.rs:296-308 | scopes are looked into 32 deep and no deeper |
| Hunt.Hunter.Scan | crates/bilbo/src/dwarf.rs:296-367 | the first `MaybeUninit` at the address in order down to the depth limit, or else everything gathered |
| Hunt.Hunter.SoleMaybeUninit | crates/bilbo/src/dwarf.rs:372-393 | the first candidate exactly when all have one type |

## Left out

- Maps: `BTreeMap` fields are filled through trampolines into the standard library, which is not part of this model; the interpreter refuses them, so there is nothing to compare. `Classify` keeps their key and value types but not their sizes and addresses.
- Allocation failure, and what either backend does on malformed input: inputs are grammatical and fit in memory. Where the source would panic (a missing key, an integer beyond 128 bits) `Binds` has no value.
- Agreement.BackendsAgree: that both find the same value under each field's name is a hypothesis (`KeysAlike`); `Domain.RepeatsAgree` and `Domain.EscapedKeySpells` say when repeated and escaped keys do no harm.
- Niches a payload can hold, such as the zero of `Option<NonZeroU32>` read from `0`: such plans are not `Sound`.
- An absent key for a field that is a back-edge to an option: the rule looks for a literal option in both backends, and neither accepts it here.
- Jit.RtF64v: rounding is the library's, so the bits are an uninterpreted function of the token, the same for both backends; the token is a number of RFC 8259, and the library's partial parse is taken to read the longest such number.
- Jit.ParseInt: integers of 16 bytes, of which the compiled parser stores 8 and leaves the rest (`Jit.WideIntegerMissing`), so `Reads` has none; the interpreter's are modelled.
- Jit.ParseVec: elements of size 0, for which the interpreter asks the allocator for no bytes.
- Scan.RtSkip: the depth counter is unbounded, not 32 bits wide.
- Location.Sleb128: encodings of more than ten bytes, and operands that run past the expression, which overflow or panic in the source.
- Classify.ClassifyType: word offsets inside strings and vectors, referenced sizes and alignments are read from the input rather than from member DIEs; strong counts are counted as references in bodies.
- CollectCells.PlanAndCells: that a recovered layout is `Sound` is what the compiler promises of it, not what is proved.
- Cache.AlwaysSafe: unwinding the frame and finding the local are part of one thread's own step, and the call carries their result; a panic there holds no lock.
- Cache.Resolved.Ext: that initialisation is atomic between threads is the standard library's `OnceLock`.
- Registers, machine code and calling conventions: emitted instructions are taken to mean what they say.
- Frame capture, unwinding, mapping of debug sections, logging, the symbol dump for profilers and the demo.
