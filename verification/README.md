# Verification of the chat client's library and bouncer

A Dafny model of the parts of the program where a mistake would be hardest to see by reading, with proofs of what
they promise. `dafny verify dfyconfig.toml` checks everything.

The repository is a chat client on top of its own C++ library, `arlib`. Seven pieces are modelled, each in the form of
its source: code that updates fields or arrays is a class or a method with a loop, proved against functions about
which the promises are then proved.

- **Raw DEFLATE decompression** (`arlib/deflate.h`, `arlib/deflate-decomp.cpp`). `DeflateSpec` is sections 3.2.3 to
  3.2.7 of RFC 1951 written as functions from bits to an outcome. `Canonical`, `HuffTree`, `TableSize` and `HuffTable`
  build the multi-level Huffman table in place and show that walking it is decoding and that it fits. `Inflator` is
  the class, resumable at every place where the original is. `InflateRuns`, `MixedRuns` and `WrongRuns` are whole runs with
  input and output handed over in pieces. `DeflateEncode` and `DeflateParse` say what the outcome means: exactly the
  streams that encode some list of blocks are accepted, and they give what the blocks stand for. `Rfc1951` and
  `FixedCodes` tie the tables and codes that all of these use to the rules of the RFC, and `Samples` to the bytes of
  three streams, one for each kind of block.
- **CRC-32** (`arlib/crc32.cpp`). `Gf2` is polynomial arithmetic over bits. `Crc32` is the nibble table, `Crc32Fold`
  the carry-less multiplication with folding and Barrett reduction. Both are proved equal to the bit-serial form, for
  any modulus; `Crc32Rfc` says which modulus it is, and that the form is the one of RFC 1952 on 32-bit words.
- **HTTP pipelining** (`arlib/http.cpp`). `HttpModel` is what a request does from one `co_await` to the next, over
  the socket, its counters and the two mutexes, with any interleaving, cancellation and server. `HttpPipeline`,
  `HttpBase` and `HttpRuns` are invariants and theorems about every run, `HttpClient` the object, `HttpExamples` two
  runs that go wrong, and `HttpHandover` the one kind of cancellation that the model leaves out, and why.
- **IRC tracker** (`irc.cpp`). `IrcTracker` is what each line does to the known channels, `IrcLaws` what that means
  whatever the server sends, `IrcMembers` a server that keeps to the protocol and the theorem that the member lists
  are right.
- **IRC bouncer** (`irc.cpp`). `Bouncer` is the server object with its history, `BouncerReplay` says what a client
  that connects is told, compared with what it has missed, `BouncerClient` what it makes of that.
- **Sorts** (`arlib/array.h`, `arlib/heap.h`). `StableSort` is the insertion sort with galloping probes whose index
  may wrap below zero, `HeapSort` the heap sort that moves a hole.
- **Domain names** (`arlib/dns.cpp`). `DnsNames` is how a name is checked and encoded, and how it is compared with one
  in a packet, whose labels may be anywhere before; `DnsGrammar` is the grammar of the names that are accepted.

`Bits` and `Wrappers` hold what several of these share.

## Findings

Where the code does not do what it is for, the condition under which it does is proved, and an input for which it
does not.

1. **Stale resumption** (`arlib/deflate-decomp.cpp:460-465`, `489-494`). If output ran out in the symbol loop and,
   later in the same block, input does, `m_state` still names the earlier pause. The next call writes the old literal
   or copy again. `MixedRuns.ResumeExact`: for a stream that is right, resuming is right exactly if `m_state` names no
   pause for output; a wrong one may be accepted then, exactly if what is left fits the output with the repetition
   (`MixedRuns.StaleExact`). `MixedRuns.StaleRun` is a run of eight bytes of input that gives three letters for two,
   `WrongRuns.WrongRun` one of seven that gives five letters for a stream that is wrong.
2. **Unchecked reuse** (`arlib/http.cpp:166-174`). A request that cannot be pipelined takes `mut2` early and, if
   keep-alive allows, uses the socket without looking at `sock_sent` and `sock_received`. After a pipelined request
   was cancelled it reads the response to that one. `HttpRuns.ReuseExact`: it reads its own exactly if everything
   sent on the socket had been answered. `HttpExamples.ReuseExample` is the run.
3. **Counters that wrap** (`arlib/http.h:145-147`, `arlib/http.cpp:206`). The check before a pipelined request reads
   compares a 32-bit and a 16-bit counter. `HttpRuns.TurnExact` and `HttpRuns.TurnGaps`: the request that passes and
   does not retry gets its own response exactly if neither has gone round since and no response was left half-read.
   `HttpExamples.WrapExample` needs 65536 cancelled requests.
4. **Lines skipped after a trim** (`irc.cpp:931-963`). `n` counts the lines trimmed and is then used, without being
   reset, as an index into what is left, so as many lines are neither folded into the state nor replayed.
   `BouncerReplay.CoversExactly` is the exact condition, `BouncerReplay.TrimRun` a run.
5. **Seconds for microseconds** (`irc.cpp:919`, `1003-1014`). What a client says is stamped with `time(NULL)`, all
   else with microseconds. Such a line is trimmed at once exactly if nothing was there before it but lines more than a
   week old (`BouncerReplay.SaidTrimmed`, `BouncerReplay.TrimmedExactly`), and a line with the right stamp never is. It
   counts as said before the last client left exactly if nothing at all was there and its own stamp is no later
   (`Bouncer.BouncerServer.Say`). `BouncerReplay.StampExample` is such a line.
6. **Missed loss of connection** (`irc.cpp:933-964`). Only `>` lines are folded, so a `c` line that says that the
   server was lost leaves the state connected. `BouncerReplay.StateExact` is the exact condition,
   `BouncerReplay.DownRun` a run.
7. **States that add up** (`irc.cpp:1219-1231`, `arlib/set.h:583-605`, `arlib/array.h:720-735`). Loading a state adds
   to the channels and members a client has. `BouncerClient.LoadExact`: it takes the state over exactly if it knew no
   members. After it noticed that the bouncer was gone this is so; after it gave up waiting for a ping
   (`irc.cpp:1094-1100`) it is not (`BouncerClient.ReloadExample`).
8. **Lines heard twice** (`irc.cpp:892-896`, `1006-1010`, `967-975`). A client is sent lines from the moment it is
   accepted, and those since the last one left again after its `C` line. `BouncerClient.FirstConfigure`: a line is
   taken account of twice exactly if it came in between and is not left out by the answer, so if nothing is trimmed
   every line is heard once exactly if none came in between. `BouncerClient.TwiceRun` is a run, after which a JOIN has
   listed the member twice (`BouncerClient.TwiceJoined`).
9. **`unused_input`** (`arlib/deflate.h:143-144`) is documented as the bytes not used from the last piece of input. It
   counts whole bytes in the bit buffer too. `Inflator.Inflator.UnusedInput`: it is that number exactly if all earlier
   pieces were used up, and otherwise greater by the whole bytes that are left of them. `MixedRuns.UnusedRun` is a run
   in which the last piece is empty and the answer is four.
10. **Longest domain names** (`arlib/dns.cpp:392-393`). `same_name` counts the zero byte at the end although its comment
   says that it does not, so it recognises names of up to 252 characters, and `encode_domain_name` accepts 253
   (`arlib/dns.cpp:44`). `DnsNames.AnswerExact` and `DnsNames.Echo`: an accepted name is recognised in an answer exactly
   if it is there and has at most 252; `DnsNames.Longest` is one that is not.
11. **Abandoned mutex** (`arlib/runloop2.h:850-883`). A request that is destroyed after `unlock` has scheduled it and
   before it runs leaves the mutex locked with nobody holding the lock. `HttpHandover.HandoverExact`: at any other
   moment a request can be dropped with no harm to the others; at this one no request started afterwards ever finishes.

## Model

| member | source | states |
|---|---|---|
| `Canonical.PrefixFree` | arlib/deflate-decomp.cpp:51-57 | of the codes of section 3.2.2 of RFC 1951 none is a prefix of another, whenever the Kraft sum is at most one |
| `Canonical.Covered` | arlib/deflate-decomp.cpp:69-77 | if the Kraft sum is exactly one, every 16 bits begin with some code, so an accepted complete table has no hole |
| `Rfc1951.Consecutive` | arlib/deflate-decomp.cpp:51-57 | the first rule of section 3.2.2 of RFC 1951: read as numbers, the codes of one length follow each other in the order of the symbols |
| `Rfc1951.ShorterFirst` | arlib/deflate-decomp.cpp:51-57 | the second rule: a shorter code comes before the beginning of any longer one |
| `Rfc1951.FirstZero` | arlib/deflate-decomp.cpp:51-57 | the first symbol of the shortest length has a code of zeros |
| `Rfc1951.UsableExactly` | arlib/deflate-decomp.cpp:69-76 | the lengths are accepted exactly if the shares 2^-length add up to one, symbol by symbol, or there is no code or a single one of one bit |
| `TableSize.Fits286` | arlib/deflate.h:32 | a complete code of up to 286 symbols needs at most 1760 slots: 512, and 8 for each inner node at depths 9 and 12 |
| `TableSize.Fits30` | arlib/deflate.h:33 | a complete code of up to 30 symbols needs at most 608 slots |
| `TableSize.FitsShort` | arlib/deflate.h:34 | a complete code whose lengths are at most 9 needs the 512 slots of the first layer alone, which is the case of the 19 lengths of at most 7 bits |
| `HuffTable.LayerCount` | arlib/deflate-decomp.cpp:102-112 | the layers of any table under construction are no more than the inner nodes that these bounds count, so there is room for each of them |
| `HuffTable.CountLengths` | arlib/deflate-decomp.cpp:47-49 | how many symbols there are of each length |
| `HuffTable.Starts` | arlib/deflate-decomp.cpp:51-57 | used_bits is the Kraft sum scaled by 2^16, and bits_start the 16-bit left-aligned first code of each length |
| `HuffTable.Classify` | arlib/deflate-decomp.cpp:69-76 | the checks accept exactly a Kraft sum of one, or no code longer than one bit if bad_symbol is not 19 |
| `HuffTable.Descend` | arlib/deflate-decomp.cpp:94-124 | one step down keeps the table a tree for the codes so far, and the next layer is that of the next bits of the code, new or old |
| `HuffTable.WriteClones` | arlib/deflate-decomp.cpp:126-136 | the clone loop writes exactly the slots whose bits begin with the code, each of them empty before |
| `HuffTable.Insert` | arlib/deflate-decomp.cpp:84-136 | the table is afterwards the tree for one code more, with room left for all the others |
| `HuffTable.InsertAll` | arlib/deflate-decomp.cpp:82-137 | the table is the tree for all the canonical codes, although bits_start wraps at 16 bits |
| `HuffTable.WipeHoles` | arlib/deflate-decomp.cpp:139-149 | the slots that no code reaches, and no others, become bad_symbol |
| `HuffTable.Unpack` | arlib/deflate-decomp.cpp:45-152 | true exactly for the accepted lengths, and then the table is the tree of their canonical codes with no hole left but bad_symbol; every write is within the array |
| `Inflator.DecodeWindow` | arlib/deflate-decomp.cpp:194-207 | bits found in the table are the decoding of the input there, if so many are in the buffer |
| `Inflator.Inflator.constructor` | arlib/deflate.h:55-67 | nothing read, nothing written, and the whole input means a stream from its first block on |
| `Inflator.Inflator.SetInput` | arlib/deflate.h:69-78 | the position in the input and what remains to be decoded are unchanged |
| `Inflator.Inflator.SetOutputFirst` | arlib/deflate.h:80-90 | no earlier chunk, nothing written yet |
| `Inflator.Inflator.SetOutputGrow` | arlib/deflate.h:92-103 | with a larger array that begins with what was written, what remains to be decoded is unchanged |
| `Inflator.Inflator.SetOutputNext` | arlib/deflate.h:105-116 | with an old chunk of at least 32768 bytes the last 32768 bytes of output are still within reach, also if it is the same array |
| `Inflator.Inflator.UnusedInput` | arlib/deflate.h:143-144 | the input that was supplied less the bits consumed, rounded up to bytes; these are the unused bytes of the last piece exactly if all earlier pieces were used up, and otherwise more by what is left of those |
| `MixedRuns.UnusedRun` | arlib/deflate.h:143-144 | a run after which it is four although the last piece is empty |
| `Inflator.Inflator.RefillFast` | arlib/deflate-decomp.cpp:154-164 | afterwards there are 32 bits or no more input; the buffer still holds the bits of the input at the position and zeros above, and the position is unchanged |
| `Inflator.Inflator.RefillAll` | arlib/deflate-decomp.cpp:166-173 | the same with more than 56 bits, or no more input |
| `Inflator.Inflator.Extract` | arlib/deflate-decomp.cpp:175-192 | the value of the next n bits of the input; past its end the count goes below zero |
| `Inflator.Inflator.ReadHuffman` | arlib/deflate-decomp.cpp:194-216 | the symbol whose canonical code comes next in the input and the position after it, or bad_symbol |
| `Inflator.Inflator.MainRefill` | arlib/deflate-decomp.cpp:471-505 | 48 bits, or 32 and four more bytes of input, or the end of the input; more input is asked for exactly if fewer than 48 bits are there and it is not the last |
| `Inflator.Inflator.CopyMatch` | arlib/deflate-decomp.cpp:578-604 | what was copied is a prefix of the copy that section 3.2.3 of RFC 1951 describes, byte by byte and overlapping; a source in the previous chunk is read before it is overwritten |
| `Inflator.Inflator.StepBlock` | arlib/deflate-decomp.cpp:242-253 | a step, likewise, over a block header; more input is asked for exactly if fewer than ten bits are left of what was supplied |
| `Inflator.Inflator.LoadFixed` | arlib/deflate-decomp.cpp:432-443 | both tables are those of the fixed codes of section 3.2.6 |
| `FixedCodes.FixedTable` | arlib/deflate-decomp.cpp:432-443 | the codes of the table of section 3.2.6, all 288 of them: 8 bits from 00110000, 9 from 110010000, 7 from 0000000, 8 from 11000000 |
| `FixedCodes.FixedDistances` | arlib/deflate-decomp.cpp:432-443 | the distance codes are the numbers from 0 to 31 in five bits |
| `Inflator.Inflator.StepStored` | arlib/deflate-decomp.cpp:259-277 | a step: reading the length and its complement leaves the meaning of the stream as it was, or it is an error exactly if the specification has none |
| `Inflator.Inflator.StepRaw` | arlib/deflate-decomp.cpp:279-321 | a step, likewise, over the bytes of a stored block, first from the bit buffer, then from the input; a pause keeps how many are left |
| `Inflator.Inflator.StepDynamic` | arlib/deflate-decomp.cpp:329-340 | a step, likewise, over the three sizes of a dynamic block |
| `Inflator.Inflator.StepSized` | arlib/deflate-decomp.cpp:346-380 | a step, likewise, over the code length code in its own order; it is an error exactly if a size or the code is one by the specification |
| `Rfc1951.OrderTable` | arlib/deflate-decomp.cpp:368 | the order in which the code length code is given: 16, 17, 18 and 0, then outwards from 8 |
| `Inflator.Inflator.StepLengths` | arlib/deflate-decomp.cpp:390-423 | a step, likewise, over a code length or a repetition; an error exactly if it runs past the number of lengths or repeats nothing |
| `Inflator.Inflator.LengthsDone` | arlib/deflate-decomp.cpp:425-428 | a step, likewise, to the two tables of the lengths read; an error exactly if one of them is not accepted |
| `Inflator.Inflator.StepTokens` | arlib/deflate-decomp.cpp:467-510 | a step, likewise, over a symbol; more input is asked for exactly if fewer than 48 bits are left of what was supplied |
| `Inflator.Inflator.ReadDistance` | arlib/deflate-decomp.cpp:546-570 | the rest of a copy, likewise, with the distances of section 3.2.5 from a closed form of its table; an underflow at the end of input is always an error, if only here |
| `Rfc1951.LengthTable` | arlib/deflate-decomp.cpp:535-544 | the law of the length table: four symbols for each number of extra bits from 265 on, each beginning where the one before ends, and 258 at 285 |
| `Rfc1951.DistanceTable` | arlib/deflate-decomp.cpp:560-564 | the law of the distance table: two symbols for each number of extra bits from 4 on |
| `Rfc1951.CopyExactly` | arlib/deflate-decomp.cpp:578-604 | a copy gives exactly the output that begins with what was there, is longer by the length, and has in every new place the byte that is the distance before it |
| `Inflator.Inflator.StepLiteral` | arlib/deflate-decomp.cpp:512-528 | the literal is written, or remembered exactly if there is no room; the meaning stays as it was |
| `Inflator.Inflator.StepCopy` | arlib/deflate-decomp.cpp:572-604 | the copy is written, or its rest remembered when the output is full; the meaning stays as it was, and it is an error exactly if the distance goes past the beginning |
| `Inflator.Inflator.Inflate` | arlib/deflate-decomp.cpp:236-631 | from any place where it may stop: done with what the specification gives for the rest, error exactly if it gives none, or a pause from which the rest still means the same; and the course of literals fixes which of these it is |
| `InflateRuns.InflateBytes` | arlib/deflate-decomp.cpp:633-652 | for every input the specified output if there is one and no whole byte is left over, and otherwise nothing; it terminates although the buffer only doubles |
| `InflateRuns.UnusedExactly` | arlib/deflate.h:143-144 | so many bytes are left over if that many begin after the end of the stream |
| `Samples.StoredSample` | arlib/deflate-decomp.cpp:992 | two stored blocks, decompressed to their two bytes |
| `Samples.FixedSample` | arlib/deflate-decomp.cpp:1005 | a block with the fixed codes, two literals and a copy of length 14, decompressed to sixteen letters |
| `Samples.DynamicSample` | arlib/deflate-decomp.cpp:327-430 | a block with codes of its own, given by all three kinds of repetition, the last one across the two codes, decompressed to its sixteen letters |
| `InflateRuns.InflateExact` | arlib/deflate-decomp.cpp:654-660 | true exactly if the specified output is as long as the buffer and no whole byte is left over, and then the buffer holds it |
| `InflateRuns.InflateChunks` | arlib/deflate.h:105-116 | with output in any chunks of at least 32768 bytes, different or the same again, the bytes are those of one unbounded buffer; it pauses only when all are full |
| `InflateRuns.InflatePieces` | arlib/deflate.h:69-78 | with input in any pieces and one buffer the result is that of the whole input at once |
| `InflateRuns.InverseOfEncoding` | arlib/deflate-decomp.cpp:236-631 | any encoding of any stored, fixed and dynamic blocks, padded to bytes, gives back what the blocks stand for, with nothing left over |
| `DeflateEncode.RoundTrip` | arlib/deflate-decomp.cpp:236-625 | the specification inverts every encoding of a list of blocks, at any bit position and after any output |
| `DeflateEncode.EveryOutput` | arlib/deflate-decomp.cpp:255-323 | every byte string is the output of some stream |
| `DeflateEncode.CopyToken` | arlib/deflate-decomp.cpp:535-564 | every length from 3 to 258 and every distance from 1 to 32768 has symbols and extra bits that stand for it by the laws of the two tables |
| `DeflateParse.TokensExactly` | arlib/deflate-decomp.cpp:467-625 | the same as DecodesExactly from the middle of a block with tables: exactly the encodings of tokens up to its end and of blocks after it |
| `DeflateParse.DecodesExactly` | arlib/deflate-decomp.cpp:236-631 | the specification gives an outcome exactly if the bits encode some list of blocks, and it is what these stand for |
| `MixedRuns.ResumeExact` | arlib/deflate-decomp.cpp:458-494 | after a pause for input in the symbol loop the remembered place is right exactly if it is not an old pause for output, or the stream is wrong and found wrong still; for a right stream an old pause gives too much or an error |
| `MixedRuns.StaleExact` | arlib/deflate-decomp.cpp:458-494 | what going on from an old pause gives, for right and wrong streams: exactly what is encoded by the rest, if it reaches back no further than the output with the repetition |
| `MixedRuns.ResumeStale` | arlib/deflate-decomp.cpp:458-494 | so a call that goes on from there and completes has given more output than the stream stands for |
| `MixedRuns.InflateMixed` | arlib/deflate.h:69-103 | with input in any pieces and any growing buffers the result is right, except where that stale pause is met |
| `MixedRuns.StaleRun` | arlib/deflate-decomp.cpp:458-494 | a run that meets it: done with three letters, where the stream stands for two |
| `WrongRuns.WrongRun` | arlib/deflate-decomp.cpp:458-494 | a run that meets it on a wrong stream: done with five letters, where the stream stands for nothing |
| `Crc32.TableEntry` | arlib/crc32.cpp:37-47 | the table entry is what four bits of the bit-serial form contribute, with the complements folded in |
| `Crc32.Small` | arlib/crc32.cpp:49-64 | equal to the bit-serial reflected CRC for every input and starting value |
| `Crc32.ChecksumConcat` | arlib/crc32.cpp:165-173 | the checksum of a concatenation is that of the second part started from that of the first |
| `Crc32Fold.PolyExp` | arlib/crc32.cpp:8-23 | x to the power dist + 31 modulo the polynomial, also for negative dist |
| `Crc32Fold.PolyBarrett` | arlib/crc32.cpp:25-35 | the first 33 coefficients of the inverse of the polynomial as a power series |
| `Crc32Fold.FoldResidue` | arlib/crc32.cpp:69-73 | folding multiplies the residue of a 128-bit register by the power of x that the constant is for |
| `Crc32Fold.FourLanes` | arlib/crc32.cpp:92-115 | the four lanes together keep the residue of everything read |
| `Crc32Fold.Barrett` | arlib/crc32.cpp:156-161 | the remainder of the last 64 bits modulo the polynomial |
| `Crc32Fold.Pclmul` | arlib/crc32.cpp:75-162 | equal to the bit-serial reflected CRC for every input of at least four bytes and every starting value |
| `Crc32Fold.Crc` | arlib/crc32.cpp:165-173 | both ways of computing it, chosen by length and processor, give the bit-serial CRC, whose polynomial and check value Crc32Rfc proves |
| `Crc32Rfc.Exponents` | arlib/crc32.cpp:4 | the coefficients of the polynomial are those of x^32 + x^26 + x^23 + x^22 + x^16 + x^12 + x^11 + x^10 + x^8 + x^7 + x^5 + x^4 + x^2 + x + 1 |
| `Crc32Rfc.SerialExactly` | arlib/crc32.cpp:37-47 | on 32-bit words the bit-serial form is: take a bit into the lowest place, shift right, and if a one fell out take in 0xEDB88320 |
| `Crc32Rfc.ChecksumExactly` | arlib/crc32.cpp:165-173 | and the checksum is that of section 8 of RFC 1952: complement, all bits of all bytes, complement |
| `Crc32Rfc.CheckValue` | arlib/crc32.cpp:165-173 | either way the nine bytes 123456789 give 0xCBF43926, bit by bit |
| `Crc32Rfc.TestValues` | arlib/crc32.cpp:196-206 | either way four bytes of ones give 0xFFFFFFFF however many zeros follow, and the complement of the polynomial if 0x80 follows these |
| `HttpPipeline.StepInv` | arlib/http.cpp:139-287 | if no check is passed out of turn, every step keeps that the responses on a connection come in the order in which the requests wait, and that who reads reads its own |
| `HttpBase.StepBase` | arlib/http.cpp:139-287 | every step, without any condition, keeps the order of the mutexes, the place of each request on its connection, and the number of its transmissions |
| `HttpRuns.Transmissions` | arlib/http.cpp:88-208 | in every run a request is transmitted at most once, or at most twice if it was pipelined, which only a GET without a body is; and only to its own origin |
| `HttpRuns.PipedSafely` | arlib/http.cpp:90-93 | in every run, only a GET without a body is pipelined |
| `HttpRuns.SentExactly` | arlib/http.cpp:157-203 | the only steps that transmit: with mut1 if it is a GET without a body and the socket is alive and of its origin, with mut2 if the socket is, and on a new socket |
| `HttpRuns.TurnTaken` | arlib/http.cpp:203-208 | a pipelined request goes on to read exactly if the socket is there, of the same generation, and as many responses were read as were sent before it; otherwise it connects anew or fails |
| `HttpRuns.FailedExactly` | arlib/http.cpp:127-287 | when a request fails, with which of the statuses -1 to -5, and that the socket is given up exactly then |
| `HttpRuns.HalfRead` | arlib/http.cpp:210-287 | in every run, after a request was dropped in the middle of a response, whoever reads a status line from that connection is not at the beginning of any response |
| `HttpRuns.PairingFresh` | arlib/http.cpp:173-199 | in every run a request that made its socket itself reads its own response or none |
| `HttpRuns.TurnExact` | arlib/http.cpp:203-208 | in every run a pipelined request that passes the check and does not retry reads its own response exactly if it was its turn then and none was left half-read |
| `HttpRuns.TurnGaps` | arlib/http.cpp:206 | a request that passes the check has its turn exactly if fewer than 2^32 connections were made since it was sent and it is less than 2^16 responses from being next |
| `HttpRuns.ReuseExact` | arlib/http.cpp:166-194 | in every run a request that takes the kept-alive socket without a check reads its own response exactly if everything sent on it had been answered |
| `HttpRuns.HowItReads` | arlib/http.cpp:157-208 | these are all the ways to a response |
| `HttpRuns.PairingExact` | arlib/http.cpp:139-287 | so for every request of every run, whatever is cancelled: the step at which it got mut2, late with the check passed or early with a usable socket, unless it made its own, and the exact condition there under which its response is its own |
| `HttpRuns.Pairing` | arlib/http.cpp:203-208 | if no check is passed out of turn, every request that did not take a socket over unchecked reads its own response or none, whatever is cancelled |
| `HttpRuns.PairingUncancelled` | arlib/http.cpp:139-287 | without cancellation every response is its own request's, for any number of requests, while there are at most 2^32 connections |
| `HttpRuns.NoLivelock` | arlib/http.cpp:139-287 | a run is at most seven times as long as the number of its requests |
| `HttpRuns.NoDeadlock` | arlib/http.cpp:157-208 | in every state of every run, if a request is not over then some request can take a step without cancellation |
| `HttpExamples.ReuseExample` | arlib/http.cpp:166-174 | a request reads the response to another that was cancelled |
| `HttpExamples.WrapExample` | arlib/http.h:146-147 | so does a pipelined one, after 65536 cancelled ones |
| `HttpClient.Client.OnMut1` | arlib/http.cpp:157-203 | from mut1 to the next suspension, with all fields: the step of the same name, so what holds of all runs holds of the object; what it transmits is told by SentExactly |
| `HttpClient.Client.OnMut2` | arlib/http.cpp:168-208 | the same with mut2, taken early or late |
| `HttpClient.Client.OnSocket` | arlib/http.cpp:178-203 | the same with the new socket or its failure |
| `HttpClient.Client.OnLine` | arlib/http.cpp:210-219 | the same with the status line, or its absence, which means a retry |
| `HttpClient.Client.OnBody` | arlib/http.cpp:221-287 | the same with the rest of the response |
| `HttpClient.Client.Destroy` | arlib/runloop2.h:829-858 | the same with the destruction of the coroutine, which leaves either queue or releases either mutex |
| `HttpClient.Client.Promises` | arlib/http.cpp:139-287 | of any object that only its methods have touched: a request other than a GET without a body is transmitted once at most, one of these twice, and a socket of one's own gives one's own response |
| `HttpClient.Client.PromisesPairing` | arlib/http.cpp:139-287 | and every finished request got its own response exactly under the condition of PairingExact |
| `HttpClient.Client.PromisesProgress` | arlib/http.cpp:157-208 | and while a request is unfinished one of the methods other than Destroy can be called |
| `HttpHandover.NeverFinished` | arlib/runloop2.h:850-883 | after a request was destroyed between being handed a mutex and running, those that wait behind it and those started later wait forever or are cancelled, in every run |
| `HttpHandover.HandoverExact` | arlib/runloop2.h:850-883 | in every state of every run, dropping an unfinished request is harmless if it has not been handed a mutex, and otherwise lets no later request finish |
| `IrcTracker.TrackerState.IrcLine` | irc.cpp:480-679 | what each line does to the fields, of which the laws of IrcLaws and IrcMembers hold |
| `IrcTracker.TrackerState.Disconnected` | irc.cpp:463-474 | no channel but queries stays joined, and their member lists are empty |
| `IrcLaws.Ourselves` | irc.cpp:482-526 | only a 001 connects; only it and our own NICK rename us; our ident is that of the last line that came from us |
| `IrcLaws.Opened` | irc.cpp:441-679 | which channels and queries are known: a 001 clears them, a JOIN, a message and a notice to a channel open it, and a message to us opens a query with its sender |
| `IrcLaws.OpenedAs` | irc.cpp:441-454 | a query is joined from the start, a channel is not |
| `IrcLaws.StaysOpen` | irc.cpp:441-454 | messages change nothing in what is open, apart from a query without a name |
| `IrcLaws.Staying` | irc.cpp:491-552 | we are in a channel from our JOIN until our PART or KICK or the next 001, whatever the server sends |
| `IrcLaws.InOrder` | irc.cpp:500-581 | the members stay in the order in which they came, whatever the server sends; one occurrence is removed, and the names list adds only whom it does not find |
| `IrcLaws.QueriesApart` | irc.cpp:512-565 | a NICK or QUIT changes no query |
| `IrcLaws.Losing` | irc.cpp:463-474 | a loss of connection takes us out of all channels and leaves the rest |
| `IrcMembers.StripExactly` | irc.cpp:574 | from a name in the names list exactly the marks ~ & @ % + at its beginning come off |
| `IrcMembers.StepSync` | irc.cpp:480-586 | whatever happens on a server that keeps to the protocol, the tracker that is told about it stays in step |
| `IrcMembers.MembersExact` | irc.cpp:480-586 | on a server that sends nicks behind the marks of their privileges: at every moment the joined channels are those we are in and we are connected and called as it says; the member lists have no duplicates and no strangers, lack nobody whom a names list has already mentioned or who came later, and are exact once the list is over |
| `IrcMembers.StaysListed` | irc.cpp:566-586 | a list that is complete stays so until we join again |
| `Bouncer.BouncerServer.Accept` | irc.cpp:885-897 | the client is sent lines from now on |
| `Bouncer.BouncerServer.Leave` | irc.cpp:901-912 | last_disconnect separates the lines until now from all later ones |
| `Bouncer.BouncerServer.SendLine` | irc.cpp:1003-1014 | every other client is sent the line, it joins the history with a later stamp than all before, and last_disconnect still separates exactly if the history was not empty or the stamp is later |
| `Bouncer.BouncerServer.ConnectStatus` | irc.cpp:1017-1020 | the same for a line about the connection |
| `Bouncer.BouncerServer.IrcLine` | irc.cpp:1022-1028 | the same for a line of the server, unless it is a PONG |
| `Bouncer.BouncerServer.Say` | irc.cpp:917-920 | the same for a line of a client, stamped with seconds |
| `Bouncer.BouncerServer.Configure` | irc.cpp:921-980 | the lines of more than a week ago are folded into the tracker and dropped, no line is lost from the two together, and the client, and nobody else, is sent the note, the state and the replay |
| `BouncerReplay.CoversExactly` | irc.cpp:931-975 | folded and replayed lines together are what is left of the history except for as many lines as were trimmed, so by number all lines less twice those, and they are all of it exactly if nothing was trimmed or nothing is left |
| `BouncerReplay.CoveredExactly` | irc.cpp:931-975 | so the trimmed, folded and replayed lines are the history exactly under that condition |
| `BouncerReplay.SplitAtStop` | irc.cpp:948-975 | the replayed lines are those later than last_disconnect |
| `BouncerReplay.WarnedExactly` | irc.cpp:948-952 | the answer begins with the warning exactly if last_disconnect is set and more than a week back, and goes on with the state; without that no line is trimmed that came after the last client left |
| `BouncerReplay.ReplaysSince` | irc.cpp:948-975 | if nothing is trimmed, exactly the lines since a client last left are replayed, once and in order |
| `BouncerReplay.TrimmedExactly` | irc.cpp:933-1013 | the line that has just come is trimmed exactly if neither its own time nor the one after the last stamp reaches a week back |
| `BouncerReplay.SaidTrimmed` | irc.cpp:917-920 | for a line said by a client: exactly if there was nothing before it but lines more than a week old; never for a line stamped in microseconds |
| `BouncerReplay.ReplayedExactly` | irc.cpp:948-975 | the line that has just come is replayed exactly if less than half of the history is trimmed and its stamp is after last_disconnect |
| `BouncerReplay.StampExample` | irc.cpp:917-920 | a line said into an empty history is trimmed and not replayed |
| `BouncerReplay.StateExact` | irc.cpp:955-966 | the state sent is that of one who heard all folded lines, exactly if no line about a loss of connection while registered comes after the last 001 |
| `BouncerReplay.ReplayExact` | irc.cpp:955-975 | with the replay after it, exactly if that holds or the replay puts it right |
| `BouncerReplay.EndToEnd` | irc.cpp:921-980 | the same over all lines ever heard, those trimmed earlier, trimmed now, folded and replayed |
| `BouncerReplay.TrimRun` | irc.cpp:931-963 | two lines, one more than a week old: the other, an hour old, is neither folded nor replayed |
| `BouncerReplay.DownRun` | irc.cpp:955-966 | a client that comes after the server was lost is told that it is connected |
| `BouncerClient.LoadExact` | irc.cpp:1219-1222 | loading a state takes it over exactly if the client lists no members and is in no channel that the state lacks |
| `BouncerClient.ClientKnows` | irc.cpp:1055-1091 | what a client knows after its answer and later lines, whatever it knew and heard before |
| `BouncerClient.ClientExact` | irc.cpp:1055-1091 | if it listed no members, that is what one knows who heard all these lines, exactly under the condition of ReplayExact |
| `BouncerClient.NoticedVacant` | irc.cpp:1058-1065 | a client that noticed that the bouncer was gone lists no members |
| `BouncerClient.StartedVacant` | irc.cpp:1193-1194 | nor does one just started, whatever channels are configured |
| `BouncerClient.StaysTidy` | irc.cpp:706-715 | on a server that keeps to the protocol no member is listed for a channel that is not joined, which NoticedVacant needs |
| `BouncerClient.ReloadExample` | irc.cpp:1094-1100 | a client that connects again because a ping was not answered lists every member twice |
| `BouncerClient.AnswerTakes` | irc.cpp:931-975 | the state sent is that after all lines ever but those left out and those replayed, and the replay is the rest, in order |
| `BouncerClient.FirstConfigure` | irc.cpp:884-980 | a client has been sent exactly the lines since it connected, and is sent the answer; a line is taken account of twice exactly if it was among those and is not left out, and each line once exactly if those are the ones left out, or none if nothing is trimmed |
| `BouncerClient.TwiceRun` | irc.cpp:892-896 | a line between accept and C is sent to the client twice |
| `BouncerClient.TwiceJoined` | irc.cpp:500-511 | if that line is a JOIN, the member is listed twice |
| `DnsNames.DenotesOne` | arlib/dns.cpp:353-380 | a place in a packet denotes one list of labels at most, by section 4.1.4 of RFC 1035 with pointers that go back |
| `DnsNames.Stream.GetLabel` | arlib/dns.cpp:353-380 | the name there begins with the label returned and goes on where the stream is afterwards, or there is none; it always ends, since each pointer goes back |
| `DnsNames.SameName` | arlib/dns.cpp:382-396 | true exactly if both places denote the same labels, which take at most 254 bytes with their lengths and the zero byte |
| `DnsNames.SkipName` | arlib/dns.cpp:398-422 | the stream is afterwards behind the labels and the first pointer or zero byte, at the place that AfterExactly names |
| `DnsNames.AfterExactly` | arlib/dns.cpp:398-422 | behind any labels that place is one byte on after a zero byte and two after a pointer; there is none if the pointer is cut off or the byte is of a reserved kind |
| `DnsNames.SameNameSkip` | arlib/dns.cpp:424-431 | the same comparison, and if it is true the skip that follows cannot fail, although its result is ignored |
| `DnsNames.EncodeDomainName` | arlib/dns.cpp:28-66 | accepts exactly the texts of one or more labels of 1 to 63 of a-z, 0-9 and dash, the last with a letter first, of at most 253 characters; writes their encoding, and never more than 255 bytes |
| `DnsGrammar.GrammarExactly` | arlib/dns.cpp:28-66 | the accepted names, character by character: a-z, 0-9, dashes and dots, no dot at either end or next to another, no 64 characters without a dot, a letter first in the last label, 253 characters at most |
| `DnsNames.EncodedDenotes` | arlib/dns.cpp:50-55 | an encoding, anywhere in a packet, denotes the labels that were encoded |
| `DnsNames.PointerDenotes` | arlib/dns.cpp:368-377 | labels with a pointer behind them, high byte first, denote these labels followed by what is at the place it points to, if that is before the pointer, and nothing otherwise |
| `DnsNames.ReservedNothing` | arlib/dns.cpp:359-379 | a byte whose first two bits are 01 or 10 begins no name |
| `DnsNames.AnswerExact` | arlib/dns.cpp:382-396 | the encoding of an accepted name is recognised at a place of a packet exactly if that name is there and has at most 252 characters |
| `DnsNames.Echo` | arlib/dns.cpp:382-396 | so an accepted name is recognised in its own encoding exactly if it has at most 252 characters |
| `DnsNames.Longest` | arlib/dns.cpp:44 | there are accepted names of 253 characters |
| `StableSort.ArrangedSorted` | arlib/array.h:307-341 | repeated insertion at the upper bound gives a sorted sequence, for any strict weak order |
| `StableSort.ArrangedPermutation` | arlib/array.h:307-341 | a permutation |
| `StableSort.ArrangedStable` | arlib/array.h:307-341 | with equivalent elements in the order they had |
| `StableSort.Bisect` | arlib/array.h:322-332 | the binary search finds the upper bound although min may have wrapped below zero |
| `StableSort.FindPlace` | arlib/array.h:318-334 | so do gallop and search together |
| `StableSort.SSort` | arlib/array.h:308-341 | the array is what repeated insertion gives |
| `HeapSort.Heapify` | arlib/heap.h:37-77 | a heap with the same elements, and the rest of the array as it was |
| `HeapSort.Pop` | arlib/heap.h:108-129 | the root comes out, the rest is a heap, and no element is lost to the hole |
| `HeapSort.RootFirst` | arlib/heap.h:5 | nothing comes before the root |
| `HeapSort.CheckSorted` | arlib/array.h:278-287 | true exactly if the array is sorted |
| `HeapSort.Sort` | arlib/array.h:276-299 | sorted, and a permutation |

## Left out

- The rest of the program: user interface, windows, the other chat protocols, files, SQLite, processes.
- Scrollback merging and message ids (`chatbase.h`), the rest of DNS: packets, the hosts file, retries (`arlib/dns.cpp:68-351`, `433-499`), the byte queue (`arlib/bytepipe.cpp`), base64 (`arlib/base64enc.cpp`, `arlib/base64dec.cpp`), emoji (`discord-emoji.cpp`).
- The growable array with its allocation (`arlib/array.h:395-677`), and the heap's `push` (`arlib/heap.h:87-97`), which neither sort uses.
- zlib headers and Adler-32 (`arlib/zlibhead.cpp`).
- Sockets, TLS, timers, clocks, random numbers, JSON text: whether a socket is alive, what a server answers, what time it is and what a line says are parameters of the events.
- IRC text: how a line is split into words, PONG and PING, CTCP replies, modes, topics, colours and what is shown to the user; a line is what it does to the tracker.
- The autopilot that logs in and joins channels (`irc.cpp`), and what a `C` line configures.
- Inflator.Inflator: the unions of `arlib/deflate.h:37-50` are separate fields, so that they do not overwrite each other is not shown; `m_symbol_lengths` is a sequence that grows, `m_in_nbits` an integer that goes below zero where the original tests the sign of a cast.
- Inflator.Inflator.Inflate: the `switch` into the loops is a loop over methods, one for each place where it may be entered or come round.
- Inflator.Inflator.SetInput: pieces of input are sequences, which nobody changes while they are read.
- HuffTable.Unpack: codes are left-aligned sequences of 16 bits, so that `bitreverse16` computes their reversal is not modelled; table entries are numbers below 2^16 built by the layout of the comment.
- Crc32Fold.Pclmul: 128-bit registers are sequences of bits in the reflected order, and the instructions what they are on these.
- HttpModel: whether the server has closed the connection is any event's choice; a response is known by the request that it answers; headers, bodies and size limits are one event, which may fail.
- HttpHandover.Orphan: the run loop's stale handle to a destroyed coroutine is taken to do nothing when its turn comes; in the original that is undefined.
- HttpRuns.PairingUncancelled: for at most 2^32 connections, because `sock_generation` wraps there.
- Bouncer.BouncerServer.Accept: clients are numbers, and sending is appending to an outbox that the client reads in order.
- Bouncer.BouncerServer.SendLine: stamps are taken to stay below 2^64.
- BouncerClient.ClientExact: for a client that lists no members when the state comes, and member lists only for channels that we are in; otherwise `BouncerClient.LoadExact` says what it starts from and `BouncerClient.ClientKnows` what it ends with.
- StableSort.SSort: for arrays of fewer than 2^61 elements, where doubling a probe does not overflow; elements are moved as values.
- HeapSort.Sort: promises nothing for a comparison that is not a strict weak order, nor does the rest of the sorts.
