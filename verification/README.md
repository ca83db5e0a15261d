# Four components of eglibc, modelled in Dafny

The project models four self-contained parts of the C library and proves what
they are for:

1. **UFC-crypt** (`crypt/crypt_util.c`, `crypt/crypt.c`): DES by table lookup on
   pairs of spread-out words, with the salt built into the tables. It is proved
   equal to textbook DES with a salt-swapped expansion, for every key, salt and
   number of iterations, in the 32-bit build and in the 64-bit build.
   Deciphering undoes enciphering, and the salt cache never goes stale.
2. **Streaming hashes and crypt strings** (`crypt/md5*.c`, `crypt/sha256*.c`,
   `crypt/sha512*.c`): contexts fed in arbitrary pieces give the digest of the
   standards' padded message. The `$1$`, `$5$` and `$6$` drivers hash the byte
   strings they should, print a digest that can be read back, never write past a
   buffer, and always allocate enough.
3. **Message catalogs** (`catgets/`): what a file of message lines means, the
   lists gencat keeps, the search for the smallest hash plane, the table and its
   bytes, merging with an old file, and `catgets` on a host of either byte order.
   From lines to lookups the result is a faithful finite map, exactly as long as
   the messages have a plane.
4. **argp** (`argp/argp-parse.c`, `argp/argp-help.c`): flattening a tree of
   option tables, the protocol with the users' parsers, the help list's own
   reckoning of shadowed options, and the enumeration of usage patterns.

Words are sequences of bits, most significant first, because the code moves
single bits about; arithmetic on them goes through their value. The DES tables
are a parameter `t` with `t.Ok()` wherever a proof does not need their contents;
`DesConstants.STANDARD` holds the real ones. A function that a proof does not
need is hidden in it (`hide`), which keeps every proof small.

Classes and arrays follow the code: `UfcCrypt.CryptData` is `struct crypt_data`,
`HashContext.Context` the three `*_ctx` structures, `CatalogLists.Catalog` gencat's
catalog with its linked lists as sequences, `ArgpConvert.Parser` the tables of
`struct parser` and `ArgpRun.Driver` its run-time state.

## What the code does not do

Five properties one would expect fail, and each is given with its exact
condition.

- *Every catalog can be written.* The search settles on a plane of fewer
  than UINT_MAX slots or, where a single row of UINT_MAX slots would not do, of
  exactly UINT_MAX. If no size from 1 + total/5 on gives one, gencat takes a table
  of a single slot, and the second message is stored behind it. `CatalogPlane.FindPlane`,
  `CatalogTable.FillTable` and `Gencat.Update` say that the messages fit exactly
  if there is such a plane. `CatalogPlane.AlwaysFits` says that up to 146540
  messages there is one, `CatalogLimits.OneTooMany` that this bound is the best,
  and `CatalogLimits.FullSets` gives another instance without one.
- *Checking a password.* Hashing a key under its own `$5$` or `$6$` result should
  give that result again. It does not if the salt reads `rounds=` and a number up
  to the end of the salt field: a salt argument such as `$5$rounds=7`, without a
  final dollar sign, is taken literally the first time and as a request for
  rounds the second. `CryptStrings.CheckingWorks` says that this is the only case,
  `CryptStrings.MistakenExample` gives an instance.
- *Room for the short options.* With ARGP_NO_ARGS, `parser_init` reserves no
  character for the mark that `parser_convert` writes in front.
  `ArgpConvert.ShortFits` says exactly when that matters, `ArgpConvert.NoArgsOverrun`
  gives the smallest instance.
- *Help and parser agree on shadowing.* The parser looks at the option an alias
  belongs to, the help list at the alias. `ArgpAgree.AgreeExactly` says when they
  choose the same option, `ArgpAgree.AliasOfDocumentation` shows them differ.
- *Usage patterns come to an end.* A level is kept in a char with sign, and the
  level of a doc of more than 128 lines never reaches the last of them.
  `ArgpUsage.UsagePatterns` says that the loop ends exactly if no doc is that
  long, `ArgpUsage.LongDoc` gives the shortest that is.

Where comments and code differ the model follows the code: `$delset` marks a set
and nothing reads the mark (catgets/gencat.c:480); the fallback "for an empty
message file" is reached only when no plane fits (catgets/gencat.c:919), as an empty
catalog gets a plane of one slot from the search itself; and after ARGP_KEY_ARGS
all arguments count as used even if the parser moved NEXT
(argp/argp-parse.c:704-708).

## Model

| member | source | states |
|---|---|---|
| `Feistel.CoreUndone` | crypt/crypt.c:36-72 | Sixteen rounds with the keys in reverse order undo sixteen rounds, whatever the round function. |
| `DesStandard.PermutationsCancel` | crypt/crypt_util.c:168-184 | The initial and the final permutation are inverses. |
| `DesStandard.IterationsSkipPermutations` | crypt/crypt.c:36-72 | Any number of whole DES iterations equals the iterated core between one initial and one final permutation; this is why the loop leaves the permutations out. |
| `DesStandard.Deciphering` | crypt/crypt_util.c:823-916 | Textbook DES with the reversed schedule inverts DES, for any salt and any keys. |
| `DesConstants.StandardOk` | crypt/crypt_util.c:65-184 | The tables of the source satisfy what all proofs ask of tables: ranges, PC-1 skipping parity, PC-2 keeping the halves apart, E covering every bit, the permutations being inverse, the shape of the S-boxes. |
| `UfcTables.BuildTable` | crypt/crypt_util.c:375-468 | The loop behind all four lookup tables, once for all: entry j of row r has exactly the output bits that the listed moves take from the bits of j. |
| `UfcTables.GathersMore` | crypt/crypt_util.c:700-728 | OR-ing in one more looked-up entry selects exactly the bits of one more chunk. |
| `UfcTables.GatheredBit` | crypt/crypt_util.c:758-780 | A bit that a single move feeds has the value of its source bit after all lookups. |
| `UfcWords.Spread` | crypt/crypt_util.c:189-194 | Where BITMASK puts 24 bits in a word, and that all other bits are clear. |
| `UfcWords.ShuffleTwice` | crypt/crypt_util.c:567-595 | Shuffling by a and then by b is shuffling by a xor b. |
| `UfcWords.ShuffleSalts` | crypt/crypt_util.c:567-595 | Shuffling an unsalted expansion by the salt bits gives the salted expansion, and shuffling again takes the salt out. |
| `UfcWords.Shuffle64Agrees` | crypt/crypt_util.c:582-595 | The 64-bit form of the shuffle does to a packed pair what the 32-bit form does to the pair. |
| `UfcWords.ExpandedXor` | crypt/crypt.c:48-66 | Expansions of halves xor to the expansion of the xor, so the state can stay expanded. |
| `UfcKeys.Pc1Gathered` | crypt/crypt_util.c:375-384 | The sixteen lookups in `do_pc1` give C0 and D0 of the standard, with nothing above 28 bits. |
| `UfcKeys.UnmaskedRotation` | crypt/crypt_util.c:706-735 | The rotation that never cuts back to 28 bits keeps the low 28 bits equal to the true rotation, since any higher set bit copies the bit 28 below; for words of any width from 32 up. |
| `UfcKeys.Pc2Gathered` | crypt/crypt_util.c:391-400 | The lookups in `do_pc2` give a half of the round key, spread out. |
| `UfcKeys.MakeKeyWords` | crypt/crypt_util.c:684-738 | In the 32-bit build the key table holds the sixteen round keys of the standard's schedule, each word with the mark that selects the second table half; for `ufc_long` of 32 or more bits. |
| `UfcKeys.ParityIgnored` | crypt/crypt_util.c:701-704 | Keys that differ in parity bits only have the same schedule. |
| `UfcInit.EpermGathered` | crypt/crypt_util.c:414-423 | The lookups in `eperm32tab` compute E after P. |
| `UfcInit.SLookupIsS` | crypt/crypt_util.c:334 | The macro's row and column arithmetic is the standard's S-box selection. |
| `UfcInit.FillSb` | crypt/crypt_util.c:506-527 | Every entry of the combined tables of the 32-bit build is the expanded share of two S-boxes in the round function. |
| `UfcFinal.BuildEInverse` | crypt/crypt_util.c:429-432 | `e_inverse` gives for every bit of a half a place where E puts it. |
| `UfcFinal.EfpGathered` | crypt/crypt_util.c:438-468 | The lookups in `efp` undo E on any expanded pair and apply the final permutation. |
| `UfcFinal.DoFinalPerm` | crypt/crypt_util.c:744-781 | From a state that is a salted expansion, the two result words are the final permutation of the halves. |
| `UfcRounds.OffsetsConfined` | crypt/crypt.c:40-66 | Every table offset is a multiple of 8 inside its half of the 64 KiB table pair, and bit 15 comes from the key word alone. |
| `UfcRounds.SharesSum` | crypt/crypt.c:48-66 | The four looked-up shares xor to the DES round function. |
| `UfcRounds.HalfStep` | crypt/crypt.c:53-63 | Four lookups turn the expansion of L into the expansion of L xor F(R, K). |
| `UfcRounds.DoIt` | crypt/crypt.c:36-72 | `_ufc_doit_r`: the state stays a salted expansion, and afterwards it is that of the core iterated as often as asked, for every key table, salt and count. |
| `UfcRounds64.PackedFields` | crypt/crypt.c:82-117 | The four 16-bit fields of a packed word are those of its two halves. |
| `UfcRounds64.DoIt64` | crypt/crypt.c:82-117 | The 64-bit loop computes the same state as the 32-bit loop under l = l1 * 2^32 + l2. |
| `UfcWide.FillSb64` | crypt/crypt_util.c:528-545 | Every entry of the combined tables of the 64-bit build is the pair of the 32-bit build, packed. |
| `UfcWide.ShuffleSb64` | crypt/crypt_util.c:582-595 | Shuffling every packed entry of a table salts them as the 32-bit shuffle salts the pairs. |
| `UfcWide.MakeWideKeys` | crypt/crypt_util.c:706-735 | The key table of the 64-bit build holds the same round keys, both words and both marks in one. |
| `UfcWide.ReverseWide` | crypt/crypt_util.c:849-868 | Swapping opposite words of a packed key table reverses the schedule. |
| `UfcOutput.PrintableInverts` | crypt/crypt_util.c:186-187 | The eleven characters determine the 64-bit block. |
| `UfcOutput.OutputConversion` | crypt/crypt_util.c:788-814 | The buffer holds the two salt characters, the eleven digits of the block and a final zero. |
| `UfcCrypt.CryptData.constructor` | crypt/crypt_util.c:631-632 | A fresh structure is valid and not yet initialized. |
| `UfcCrypt.CryptData.InitDes` | crypt/crypt_util.c:341-553 | All tables of the build, 32 or 64 bits wide, are made and unsalted. |
| `UfcCrypt.ShuffleSb` | crypt/crypt_util.c:567-595 | Every entry of one table is shuffled, and nothing else changes. |
| `UfcCrypt.SaltBits` | crypt/crypt_util.c:653-660 | The two salt characters become the salt bits, in BITMASK positions. |
| `UfcCrypt.SaltValue` | crypt/crypt_util.c:653-660 | The six salt bits of each character, read from the last to the first, are the number that the character stands for. |
| `UfcCrypt.SaltsDiffer` | crypt/crypt_util.c:634-660 | Two salts that differ in a character exchange different bits. |
| `UfcCrypt.CryptData.SetupSalt` | crypt/crypt_util.c:623-682 | Accepted exactly if both characters are salt characters; then the tables of the build carry that salt, whatever came before. A refused salt leaves the tables as they were. |
| `UfcCrypt.CryptData.MkKeytab` | crypt/crypt_util.c:684-738 | The schedule of the new key is installed, in the forward direction, in either build. |
| `UfcCrypt.CryptData.SetDirection` | crypt/crypt_util.c:849-869 | In either build the key table is the forward or the reversed schedule exactly as `direction` says. |
| `UfcCrypt.CryptData.Iterate` | crypt/crypt.c:36-117 | Iterations followed by the final permutation, by the loop of the build. |
| `UfcCrypt.CryptData.Encrypt` | crypt/crypt_util.c:823-916 | The block becomes its unsalted DES encipherment or decipherment under the installed key, in place, with elements 0 and 1; the same in both builds. |
| `UfcCrypt.CryptData.SetKey` | crypt/crypt_util.c:933-950 | The key given as any 64 elements is packed, without its parity, and its schedule installed. |
| `UfcCrypt.PackByte` | crypt/crypt_util.c:944-945 | Bit p of a packed byte is set exactly if some element has the bit that lands there; elements other than 0 and 1 spill into the bits before. |
| `UfcCrypt.PlainKeyBits` | crypt/crypt_util.c:943-947 | Elements 0 and 1 are the key bits themselves. |
| `UfcCrypt.EncryptThenDecrypt` | crypt/crypt_util.c:823-916 | After encrypting and decrypting, a block of zeros and ones is as before, whatever salt and direction were in force. |
| `UfcCrypt.CryptData.Crypt` | crypt/crypt-entry.c:121-160 | The DES branch of `crypt`: refused exactly for a bad salt; otherwise the salt and the digits of 25 salted DES iterations of the zero block under the first eight characters of the key, independent of earlier calls. |
| `Bits.PlusAdds` | crypt/sha256-block.c:57-63 | Adding words adds their numbers modulo the size of a word. |
| `Bits.Rotl` | crypt/md5-block.c:61 | The two shifts are a rotation: the top bits follow the others. |
| `Bits.Rotr` | crypt/sha256-block.c:48 | The same to the right. |
| `ByteOrder.StoredByte` | crypt/md5.c:122-125 | Byte i of a stored word counts 256 to the i, or from the other end on a big-endian host. |
| `Md5.MixBits` | crypt/md5-block.c:5-8 | The four functions bit by bit: a choice by the first, a choice by the third, the parity, and the last as in RFC 1321. |
| `Md5.InitialBytes` | crypt/md5.c:69-79 | The registers start with the bytes that RFC 1321 lists. |
| `Md5.ProcessBlock` | crypt/md5-block.c:34-159 | The unrolled rounds on a host of either order compute RFC 1321's transformation of the block. |
| `Md5.MacroIsMix` | crypt/md5-block.c:5-8 | The rewritten macros FF and FG are RFC 1321's F and G. |
| `Sha2.Ch` | crypt/sha256-block.c:39 | Bit by bit the first operand chooses between the others. |
| `Sha2.Maj` | crypt/sha256-block.c:40 | Bit by bit at least two of three. |
| `Sha2.BigSigma` | crypt/sha256-block.c:41-42 | Each bit is the parity of three bits of the word, at the distances given. |
| `Sha2Constants.RoundConstants` | crypt/sha512.c:60-102 | Each round constant is the fraction of the cube root of its prime, to 32 or 64 bits. |
| `Sha2Constants.InitialValues` | crypt/sha256.c:89-104 | Each initial hash value is the fraction of the square root of its prime, to 32 or 64 bits. |
| `Sha2.FillSchedule` | crypt/sha256-block.c:50-57 | W holds FIPS 180-2's message schedule on a host of either order, in both widths. |
| `Sha2.ProcessBlock` | crypt/sha512-block.c:33-94 | The rotating variables compute FIPS 180-2's compression, in both widths. |
| `HashStandard.Padding` | crypt/sha256.c:112-144 | The padding brings the message to whole blocks. |
| `HashStandard.FoldAppend` | crypt/sha256-block.c:26-87 | Compressing two runs of whole blocks one after the other is compressing their concatenation. |
| `HashCounter.AddLength` | crypt/md5-block.c:26-30 | The hand-made carry (and the one wide addition of SHA-256) counts bytes modulo the square of the word size. |
| `HashCounter.LengthBytesRight` | crypt/md5.c:122-125 | The two words made with shifts and `|` are the standard's length field, eight times the byte count modulo the field width. |
| `HashContext.Context.constructor` | crypt/sha256.c:89-104 | A context that has absorbed nothing. |
| `HashContext.Context.ProcessBytes` | crypt/sha256.c:147-219 | Any number of bytes, aligned or not, is absorbed: blocks are folded, the rest is buffered, the counter grows. |
| `HashContext.Context.PadBuffer` | crypt/sha512.c:132-166 | The buffer holds the bytes left over, the padding and the length field, and ends at a whole block. |
| `HashContext.Context.Finish` | crypt/md5.c:105-131 | The padded blocks are folded, and the bytes returned are the digest of everything absorbed. |
| `HashContext.DigestOfPieces` | crypt/sha512.c:169-242 | For every message, every split into calls and every choice of alignments, the digest is that of the concatenation. |
| `HashCrypt.FeedCyclic` | crypt/sha256-crypt.c:227-230 | Feeding the digest piecewise feeds it repeated cyclically and truncated. |
| `HashCrypt.FeedBits` | crypt/md5-crypt.c:212-215 | One of two strings is fed for each bit of the length, lowest first. |
| `HashCrypt.RepeatInto` | crypt/sha512-crypt.c:265-267 | The P and S bytes are the digest repeated cyclically to the length of the key or salt. |
| `HashCrypt.Alternate` | crypt/sha256-crypt.c:210-225 | The alternate sum is the digest of key, salt, key. |
| `HashCrypt.RunRounds` | crypt/sha256-crypt.c:286-315 | The rounds mix previous result, key and salt by the parity of the round and its remainders modulo 3 and 7. |
| `HashCrypt.ShaCryptRun` | crypt/sha512-crypt.c:104-315 | The SHA drivers compute their scheme, stated as digests of byte strings. |
| `HashCrypt.Md5CryptRun` | crypt/md5-crypt.c:160-254 | The MD5 driver computes its scheme: 1000 rounds, and a zero byte or the first key byte for each bit of the key length. |
| `CryptDigits.EveryByteWritten` | crypt/sha512-crypt.c:355-376 | Every byte of a digest is in one of the groups that are printed. |
| `CryptDigits.RowsTurn` | crypt/sha512-crypt.c:355-376 | The order of the bytes: three a third of the digest apart, turned by one place from group to group; for MD5 the order it has. |
| `CryptDigits.DecodeEncode` | crypt/sha256-crypt.c:343-366 | The 22, 43 or 86 characters decode to the whole digest. |
| `CryptStrings.StrtoulDecimal` | crypt/sha256-crypt.c:138-148 | A printed number is read back, up to its dollar sign; one too large for the word becomes the largest. |
| `CryptStrings.RoundsAsked` | crypt/sha256-crypt.c:136-150 | A salt argument that asks for n rounds means n, but at least 1000 and at most 999999999, and the salt behind the dollar sign. |
| `CryptStrings.PrefixOptional` | crypt/sha256-crypt.c:130-134 | A salt argument without the prefix of the scheme means the same as with it. |
| `CryptStrings.Field` | crypt/sha256-crypt.c:150 | The salt is everything up to the first dollar sign or to the largest length, and no less. |
| `CryptStrings.CustomKept` | crypt/sha512-crypt.c:134-150 | A result with a number of rounds, read as a salt argument, means the same rounds and salt. |
| `CryptStrings.SettingKept` | crypt/sha256-crypt.c:134-150 | A result read as a salt argument means the same exactly if the salt cannot be mistaken for a request for rounds. |
| `CryptStrings.CheckingWorks` | crypt/sha256-crypt.c:104-394 | Hashing a key under its own result gives that result exactly in those cases; for `$1$` always. |
| `CryptStrings.MistakenExample` | crypt/sha256-crypt.c:136-150 | For `$5$rounds=7` it does not, whatever the key. |
| `CryptStrings.BufferSuffices` | crypt/sha512-crypt.c:423-438 | The size computed from the salt argument exceeds the length of the result, for all three schemes. |
| `CryptBuffer.PutSextets` | crypt/md5-crypt.c:271-281 | `b64_from_24bit` writes six bits a character while there is room. |
| `CryptBuffer.BuildResult` | crypt/sha256-crypt.c:322-373 | The result is complete with its final zero, or an error exactly if it does not fit; nothing beyond the buffer is touched. |
| `CryptBuffer.CryptR` | crypt/sha256-crypt.c:104-394 | The reentrant functions: the text for key and salt, or an error exactly if the buffer is too small. |
| `CryptBuffer.Crypt` | crypt/md5-crypt.c:320-341 | The functions with a static buffer never fail for lack of room. |
| `CatalogLists.Insert` | catgets/gencat.c:784-803 | A new number is inserted in order, and nothing else changes. |
| `CatalogLists.MoveAway` | catgets/gencat.c:620-645 | A symbolic message in the way gets the next number and goes to the end; the list stays ascending, its symbols distinct. |
| `CatalogLists.NumericLine` | catgets/gencat.c:588-656 | All cases of a line with a number: refused, displacing a symbolic message, or plain; with the text converted or not. The list afterwards stands for the state that the line means. |
| `CatalogLists.SymbolicLine` | catgets/gencat.c:657-675 | A known symbol is refused; a new one gets the number after the largest. The list afterwards stands for the state that the line means. |
| `CatalogLists.FindSet` | catgets/gencat.c:1074-1096 | The set under number + 1, made in front if it is missing; set numbers stay distinct. |
| `CatalogLists.Catalog.SelectSet` | catgets/gencat.c:386-465 | The catalog afterwards stands for the state after `$set` with that number; zero is refused. |
| `CatalogLists.Catalog.DeleteSetLine` | catgets/gencat.c:466-481 | The catalog afterwards stands for the state after `$delset`, which may make an empty set and changes no message. |
| `CatalogLists.Catalog.MessageLine` | catgets/gencat.c:575-806 | The catalog afterwards stands for the state after the line: the current set changed as the line says, all others as they were, and the count, which a line with a refused number raises too. |
| `CatalogLists.Catalog.ReadLines` | catgets/gencat.c:264-827 | After any sequence of lines the lists, strictly ascending with distinct symbols, stand for what the lines mean, a map from numbers to messages for each set; at least as many messages were counted as there are. |
| `CatalogLines.LinesKeep` | catgets/gencat.c:588-675 | No sequence of lines loses a message or changes its text, and a number that was explicit stays; every number is between 1 and the largest used. |
| `CatalogLines.NumberStored` | catgets/gencat.c:588-806 | A line whose number is not refused stores its text under that number; the symbolic message that had it gets the number after the largest, and nothing else changes. Without a text the number is claimed all the same. |
| `CatalogLines.SymbolStored` | catgets/gencat.c:657-806 | A new symbol has the text of its line, under the number after the largest. |
| `CatalogLines.LinesMean` | catgets/gencat.c:264-827 | After all lines a number or a symbol has a text exactly if some line gave one for it in that set, and it is the text of the first such line. |
| `CatalogLines.TextsMean` | catgets/gencat.c:575-806 | Every message of the catalog is one of these, and every one of these is in the catalog. |
| `CatalogLines.RefusedMeans` | catgets/gencat.c:594-675 | A line is refused exactly for number zero or if an earlier line gave a text for the same message. |
| `CatalogLines.CountMeans` | catgets/gencat.c:805 | The messages counted are the lines with a text and the refused ones. |
| `CatalogPlane.DepthIsMaximum` | catgets/gencat.c:882-905 | The depth of a plane is the largest number of messages in one column, and at least one. |
| `CatalogPlane.ColumnPlain` | catgets/gencat.c:893 | The column of a message is the product of its two numbers modulo the size, as long as the product is an int. |
| `CatalogPlane.TrySize` | catgets/gencat.c:879-905 | Despite the `break` that leaves only the inner loop, the depth found is exact whenever it would be accepted. |
| `CatalogPlane.FindPlane` | catgets/gencat.c:864-923 | The search ends. If there is a plane that it accepts, size times depth is minimal over all sizes from 1 + total/5 on, the largest size among equals is chosen, and the depth is exact; if there is none, the plane is one slot. There is a slot for every message exactly if there is an accepted plane or at most one message. |
| `CatalogPlane.AlwaysFits` | catgets/gencat.c:870-923 | Up to 146540 counted messages there is always an accepted plane. |
| `CatalogLimits.NoPlane` | catgets/gencat.c:907-923 | Messages whose numbers all share a column have none once their number times the least size exceeds UINT_MAX; the second of them then finds the only slot taken. |
| `CatalogLimits.FullSets` | catgets/gencat.c:919-923 | 163835 messages in five sets of ordinary numbers for which there is none. |
| `CatalogLimits.OneTooMany` | catgets/gencat.c:919-923 | 146541 messages for which there is none: the bound is the best. |
| `CatalogTable.Probe` | catgets/gencat.c:945-951 | The collision probe ends at the first free slot of the column, or leaves the table exactly if the column is full. |
| `CatalogTable.FillTable` | catgets/gencat.c:939-968 | Filling stays inside the table exactly if no column has more messages than the plane has rows. Then the table holds the messages column by column in their order and zeros elsewhere, and the pool holds the texts. |
| `CatalogTable.EntrySlot` | catgets/gencat.c:945-957 | Every message has a slot of its own in its column, within the depth. |
| `CatalogFile.SwappedTable` | catgets/gencat.c:973-1001 | The swapped table in one byte order is the table in the other. |
| `CatalogFile.WriteOut` | catgets/gencat.c:860-1004 | A file is written exactly if the messages have a plane; its bytes are header, little-endian table, big-endian table and pool for the messages of the lists. |
| `CatalogRead.ViewShows` | catgets/open_catalog.c:277-295 | The table chosen for the reader's byte order shows the written words. |
| `CatalogRead.CheckStrings` | catgets/open_catalog.c:297-320 | The size check and the scan of the last string accept every such file, without reading outside it. |
| `CatalogRead.OpenCatalog` | catgets/open_catalog.c:256-323 | A file that gencat wrote is accepted and decoded, for all four combinations of byte orders. |
| `CatalogRead.Catgets` | catgets/catgets.c:84-110 | The stored text for a key of the catalog and the default for any other, including set and message numbers out of range. |
| `CatalogRead.RoundTrip` | catgets/catgets.c:84-110 | Written, opened and asked: exactly if the messages have a plane the catalog can be written, and then it behaves as the finite map of its messages. |
| `CatalogMerge.MergeOne` | catgets/gencat.c:1262-1293 | What one old message does to the merged map. |
| `CatalogMerge.MergeMessage` | catgets/gencat.c:1254-1293 | The splice in the list does that: insert, leave, or remove. |
| `CatalogMerge.ReadOld` | catgets/gencat.c:1217-1295 | New messages override old ones and a new empty message deletes its old counterpart; the lists stay in order and the count grows by the number of messages added. |
| `CatalogMerge.ReadBack` | catgets/gencat.c:1217-1295 | Reading a catalog's own output, which exists exactly if there is a plane, into an empty catalog gives the same messages, on any pair of hosts. |
| `Gencat.ListsHoldTexts` | catgets/gencat.c:575-806 | The messages in the lists are those that the lines mean. |
| `Gencat.Build` | catgets/gencat.c:182-193 | Lines read and an old file merged: the lists hold the merge of what the lines mean with what the old file held, and the count is that of the lines and of the messages the old file added. |
| `Gencat.Update` | catgets/gencat.c:176-194 | The whole program: lines read, an old file merged, the new file written, opened and asked. A message is found exactly if it is in the merge of what the lines mean with what the old file held; the first text that a line gives for a number is found under it, unless it is empty and deletes; and all this works exactly if the merged messages have a plane, so always up to 146540. |
| `ArgpOptions.EncodeExact` | argp/argp-parse.c:365-367 | A long option's value gives group and key back exactly for keys of 24 bits with sign and the first 127 groups, among all int keys and all group numbers. |
| `ArgpOptions.RealIsNearest` | argp/argp-parse.c:326-330 | The option that an entry is an alias of is the nearest before it that is not an alias. |
| `ArgpOptions.CandidateMeans` | argp/argp-parse.c:348-371 | An entry has no argument, an optional or a required one exactly as that option says, and its own key or else that of that option. |
| `ArgpOrder.NodesMean` | argp/argp-parse.c:312-411 | The groups are exactly the argps with options or a parser, each with its own table, a parent before its children and the children in their order. |
| `ArgpTables.GroupsAdd` | argp/argp-parse.c:374-385 | Each group's `short_end` is where the letters of the groups up to it end. |
| `ArgpTables.FirstOccurrence` | argp/argp-parse.c:736-751 | The first occurrence of a letter lies in the part of the first group that declares it. |
| `ArgpTables.FirstLongWins` | argp/argp-parse.c:348-371 | The long table keeps the first declaration of a name: its value has that group and key, and its kind of argument is that of the nearest option that is not an alias, stated on the entries of the table. |
| `ArgpTables.FoundIsDeclared` | argp/argp-parse.c:348-371 | Conversely, a name in the long table has a first declaration in the tree. |
| `ArgpTables.LongDispatch` | argp/argp-parse.c:752-758 | A long name reaches the group of its first declaration and the key stated on the entries of the table, within the limits of the encoding. |
| `ArgpTables.LetterAndColons` | argp/argp-parse.c:333-346 | The letter of an entry is followed by no colon, one or two exactly as the same option takes no argument, a required or an optional one. |
| `ArgpTables.ChildInputs` | argp/argp-parse.c:386-408 | Every group below another finds its input slot among those of its parent. |
| `ArgpConvert.CalcSizes` | argp/argp-parse.c:453-478 | The four sizes are three letters an option, one long option an option, the groups, and all children. |
| `ArgpConvert.NodesTotals` | argp/argp-parse.c:453-478 | The flattened tree has exactly the counted groups and options, and at most the counted child inputs. |
| `ArgpConvert.Parser.FindLong` | argp/argp-parse.c:199-212 | The first entry with a name, or none. |
| `ArgpConvert.Parser.AddOption` | argp/argp-parse.c:327-372 | One entry of a table: its letter with the colons of its real option, and its name unless it is taken. |
| `ArgpConvert.Parser.ConvertOptions` | argp/argp-parse.c:312-411 | The tables grow by the groups of the subtree in order, within the reserved space. |
| `ArgpConvert.ShortFits` | argp/argp-parse.c:481-503 | The short option string fits in the reserved space exactly unless ARGP_NO_ARGS is set and every entry writes three characters. |
| `ArgpConvert.NoArgsOverrun` | argp/argp-parse.c:421-425 | With ARGP_NO_ARGS and no options two characters are written where one is reserved. |
| `ArgpConvert.ParserInit` | argp/argp-parse.c:481-511 | When it fits, all tables are filled within what was reserved, terminators included. |
| `ArgpConvert.GroupOfShort` | argp/argp-parse.c:727-751 | A letter goes to the first group in the tree that declares it, and to none if no group does. |
| `ArgpHelp.MakeHol` | argp/argp-help.c:427-496 | A table's list has the unshadowed letters of the table, each entry pointing at its own. |
| `ArgpHelp.HolAppend` | argp/argp-help.c:822-912 | The walk with two pointers keeps exactly the letters of the appended list that the first does not have. |
| `ArgpHelp.ArgpHol` | argp/argp-help.c:1351-1370 | After any nesting of appends the letters are the first declarations in the whole tree. |
| `ArgpHelp.ShortIterate` | argp/argp-help.c:544-567 | The callback gets exactly the unshadowed options of an entry that are not hidden, each with the option that it is an alias of, up to the first for which it answers other than zero; that answer is the result. |
| `ArgpAgree.SameOrder` | argp/argp-parse.c:312-411 | The help list meets the declarations in the order of the parser's groups. |
| `ArgpAgree.HelpKeepsFirst` | argp/argp-help.c:822-912 | The option kept for a letter is the first in the tree that has it. |
| `ArgpAgree.FirstIsShown` | argp/argp-help.c:822-912 | Conversely, the first option in the tree that has a letter is kept. |
| `ArgpAgree.AgreeExactly` | argp/argp-parse.c:333-346 | It is the parser's option exactly if it is not an alias of documentation. |
| `ArgpAgree.HelpAgreesWithParser` | argp/argp-help.c:466-492 | If no letter belongs to an alias of documentation, help and parser agree on every letter. |
| `ArgpAgree.AliasOfDocumentation` | argp/argp-help.c:487-489 | An alias of documentation whose letter is shown and never parsed. |
| `ArgpUsage.ValueDigits` | argp/argp-help.c:1374-1388 | Every level vector within the docs has a number below the product of line counts, and is the vector of that number. |
| `ArgpUsage.DigitsValue` | argp/argp-help.c:1374-1388 | Every number below the product has a vector within the docs. |
| `ArgpUsage.LinesBack` | argp/argp-help.c:1407-1422 | A doc is its lines with newlines between them. |
| `ArgpUsage.PickLine` | argp/argp-help.c:1407-1422 | Walking newlines finds the line of a level and whether another follows. |
| `ArgpUsage.ArgsUsage` | argp/argp-help.c:1395-1448 | One call shows the combination of the vector, moves the vector to the next number if asked, and reports whether it wrapped; it uses exactly its own slots. With a doc of more than 128 lines it never reports a wrap. |
| `ArgpUsage.UsagePatterns` | argp/argp-help.c:1584-1637 | Given any number of rounds, the loop ends within them exactly if no doc has more than 128 lines and there are no more combinations than rounds; it shows combination v as pattern v, and ends with as many patterns as combinations and the vector at zero. |
| `ArgpUsage.LongDoc` | argp/argp-help.c:1412-1417 | A doc of 129 lines is too long. |
| `ArgpUsage.EachCombinationOnce` | argp/argp-help.c:1584-1637 | Every combination is the one of exactly one pattern. |
| `ArgpRun.PhaseMeans` | argp/argp-parse.c:580-669 | A group whose calls end well has had INIT, options and arguments, perhaps NO_ARGS, perhaps END, perhaps SUCCESS or ERROR, and FINI, in that order. |
| `ArgpRun.Driver.GroupParse` | argp/argp-parse.c:247-263 | One call, what the parser is given, its answer and the state it leaves; the code for an unknown key from a group without a parser. |
| `ArgpRun.Driver.InitPass` | argp/argp-parse.c:533-554 | INIT goes to the groups in order, up to and including the first that objects; its answer is the result. |
| `ArgpRun.Driver.ParseArg` | argp/argp-parse.c:676-723 | The groups are tried in order, with ARG and then ARGS, until one takes the argument; the last answer is the result and all others are refusals; what every parser is given, what is counted as used, and when getopt is tried again. |
| `ArgpRun.Driver.OfferAll` | argp/argp-parse.c:687-704 | The loop over the groups: an ARG consumes the argument, an ARGS sees it put back. |
| `ArgpRun.Driver.ParseOpt` | argp/argp-parse.c:727-782 | An option goes to its group, whose answer is the result; without a group nothing is called. |
| `ArgpRun.Driver.Look` | argp/argp-parse.c:793-833 | Whether getopt is asked, with which state, and what it leaves: NEXT, the place behind a `--`, and whether it is asked again. |
| `ArgpRun.Driver.ParseNext` | argp/argp-parse.c:788-873 | Which answer of getopt, or which state without it, leads to which calls with which state; the last answer is the result, and without a call the code for an unknown key; whether that comes from an argument. |
| `ArgpRun.Driver.EndPasses` | argp/argp-parse.c:590-609 | NO_ARGS in order to the groups without arguments, then END from the last group to the first, up to and including the first call that is answered with an objection, which is the result. |
| `ArgpRun.Driver.SuccessPass` | argp/argp-parse.c:646-657 | SUCCESS from the last group to the first, up to and including the first that objects; its answer is the result. |
| `ArgpRun.Driver.Tell` | argp/argp-parse.c:630-666 | ERROR to all groups or the SUCCESS pass, and then FINI from the last group to the first; the code that is returned. |
| `ArgpRun.Driver.Finalize` | argp/argp-parse.c:580-669 | The calls and the returned code in every case: the ending passes up to an objection; ERROR to all groups with that code, or else the SUCCESS pass with its own result; FINI to all, the last group first. Success only if all had SUCCESS, and never the code for an unknown key. |
| `ArgpRun.Driver.ArgpParse` | argp/argp-parse.c:880-926 | Whole runs, with parsers and getopt arbitrary. In the loop every answer but the last is zero or a refusal that leads to the next offer. If the last is an objection, it goes to ERROR and is returned; an option that its parser or getopt does not know, or that has no group, gives EINVAL; otherwise the passes at the end decide. If an INIT is answered with an objection the run ends there with that code. |

## Left out

- ArgpRun.Driver.ArgpParse: takes a bound on the rounds of the parsing loop, since parsers that move NEXT back can keep it going for ever; the statement is about every run that ends.
- ArgpRun.Driver.Finalize: the help text printed for an error may end the process; the model continues, as with ARGP_NO_EXIT.
- CatalogFile.WriteOut: set and message numbers are positive ints, texts have no zero byte and the pool is smaller than 2^31, as in C; a product of numbers that overflows is taken modulo 2^32 with sign and then as a 64-bit size on both hosts.
- CatalogRead.OpenCatalog: accepts files that gencat wrote, with at least one message; it is not a validator of other files, which the source reads without checking.
- CatalogTable.FillTable: what storing behind the table does to memory is not modelled; that it happens is.
- Gencat.Update: numbers are positive ints, texts have no zero byte, the merge is not empty and its pool is smaller than 2^31; the old file is one that gencat wrote.
- CatalogLists.SymbolicLine: the last number used is unbounded; the source's int could overflow.
- ArgpUsage.ArgsUsage: char has a sign and eight bits and wraps, and neither translation nor help filters apply.
- ArgpHelp.MakeHol: a table must not start with an alias, which the source asserts.
- ArgpConvert.ParserInit: the initial inputs are not propagated; only that their slots exist is stated.
- CryptStrings.StrtoulDecimal: unsigned long has 64 bits, and white space is that of the C locale.
- UfcCrypt.CryptData.Crypt: keys and salts are given as characters already split from their strings.
- HashContext.Context.ProcessBytes: the buffer is bytes; the alignment of the caller's data is a flag and the union with words is not modelled.
- `$set` and `$delset` with a symbolic name, quoting, escape sequences, character sets and the C header that gencat can write.
- Sorting and printing of the help list, clusters, and long options in it.
- getopt itself: its answers are arbitrary.
- The lock around the tables shared by all `crypt_data`, NSS and FIPS variants, memory clearing, and the choice between stack and heap.
- `argp-fmtstream`: line wrapping of help output.
