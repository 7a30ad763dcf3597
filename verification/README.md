# BogVM verification model

Dafny 4.11 models of four parts of the repository, with proofs of what each promises. SHA-256, signatures and
canonical-JSON hashing are function parameters. Where a theorem needs that digests do not collide, it says so
in its `requires`, and only for the finitely many messages it hashes; the codec and the virtual machine need
no such assumption, only that digests are 64 hex digits, and one counterexample that two given digests differ.

**The BOGPK codec.** `ByteStrings`, `Transforms`, `Bases`, `Optimizer`, `Planner`, `Reader`, `ResidualCodec`,
`Containers`, `Bogpk`, `BogpkProofs`, `BogpkCodec`, `Builder`; what they mean in `TransformMeaning`,
`PlanMeaning`, `FormatMeaning` and `FormatLanguage`. Seven reversible transforms, the search for a
generated basis with the fewest residual bytes, the size model, and the binary format with its encoder and
decoder. The loops of the program are methods, each proved equal to a specification function; the theorems
are about those functions.

**The compiler and the virtual machine.** `Instructions`, `AssemblyText`, `Assembler`, `AssembledPrograms`, `Machine`,
`Runs`, `VerifiedBytes`, `Propagation`, `Vm`, `Programs`, `ProgramText`, `ProgramCode`, `ProgramRuns`, `ProgramTheorems`.
Texts are strings: the packers write them, and the assembler breaks, cuts and reads them. `TextMeaning`,
`SaidLines`, `SaidChecks`, `SaidPrograms`, `SaidRuns` and `SaidData` say what every line of a text does.
`Machine.Step` is the effect of one instruction on the state as a value; `Vm.BogVm` is the machine with its
tables as fields, and `Assembler.Assembler` the assembler with its tables; both are proved against the values.

**The workspace root machine, its journal, and the Genesis ledger.** `WorkspaceForms`, `Workspace`,
`WorkspaceRuns`, `WorkspaceMeaning`, `Journal`, `Genesis`, `GenesisRuns`, `GenesisReplay`, `GenesisFiles`.
Hash-rooted state machines; the theorems quantify over all runs.

**Two decision procedures.** `PackageStore` (transitive verification with cycle detection) and `Mesh`
with `MeshMeaning` (conflict resolution between signed claims).

`Wrappers`, `Powers`, `Decimals` and `Sorting` are shared helpers; `Sorting` is Python's stable `sorted`.

What the code does differently from a first reading of its promises:

- The residual search tries `fourier8_u8` with step 0 only (`bogvm/optimizer.py:94-112`), so the chosen plan
  is not the least over that basis with other steps: `Optimizer.FourierStepsAreNotSearched` is an input for
  each, and `Optimizer.NeverBeatenExactly` says that these are the only exceptions.
- The decoder accepts several encodings of one container; re-encoding picks one
  (`BogpkProofs.ReencodingIsNormalForm`).
- A container whose chunks are not full, or that carries a parameter outside BWT, is valid and encodable but
  does not survive the binary format; `BogpkProofs.RoundTripExact` gives the exact condition and
  `BogpkProofs.ShortFirstDoesNotSurvive` such a container.
- `VERIFY_HASH` results are not reset when the bytes of a block change later (`bogvm/vm.py:463-496`), so the
  data gate speaks about the bytes at the time of the latest check. `VerifiedBytes.StaleAcceptance` accepts
  other bytes; `VerifiedBytes.AcceptedBytesMatch` and `VerifiedBytes.KeepsBytesExactly` say which code keeps
  the verified bytes.
- The packer accepts names with a `#` (`bogvm/packer.py:98-100`), and the assembler cuts every line there
  (`bogvm/assembler.py:15-16`), so such a pack does not assemble unless it has no chunks:
  `ProgramTheorems.CutNameIsRefused` is a case, `ProgramTheorems.PackedProgramCompletes` and
  `ProgramTheorems.PackedBlockCompletes` the exact conditions.
- A rollback to a replay receipt, or to a blocked rollback, is blocked and still recorded, and replay then
  takes an empty root from it (`bogvm/genesis.py:337-338`): replay fails until a boot or a completed rollback
  follows. `GenesisReplay.ReplayExact` is the exact condition.
- Re-installing a package over its old version can close a dependency cycle that its own checks do not see;
  `PackageStore.ReplacementClosesCycle` is such a case, `PackageStore.InstalledVerifies` says exactly when,
  and `PackageStore.OthersStayVerified` which other packages it affects.
- An unknown edge type in a PROPAGATE line raises a `KeyError` in the assembler (`bogvm/assembler.py:141-147`),
  and a word that is no number a `ValueError`; both are error results here, like the one of CREATE_EDGE.
- A receipt hash made of decimal digits only is read as a number (`bogvm/genesis.py:522`), as it is here.

## Model

| member | source | states |
|---|---|---|
| Transforms.XorRoundTrip | bogvm/transforms.py:28-34 | xor with the previous byte is undone by the prefix recurrence, on every string |
| Transforms.DeltaRoundTrip | bogvm/transforms.py:36-42 | the byte differences modulo 256 are undone by the prefix sums, on every string |
| Transforms.NibblesRoundTrip | bogvm/transforms.py:98-99 | swapping nibbles twice is the identity |
| Transforms.EncodeXorPrevious | bogvm/transforms.py:28-34 | the xor loop computes the stated byte-by-byte form, first byte kept |
| Transforms.DecodeXorPrevious | bogvm/transforms.py:67-73 | the decoding loop computes the recurrence that undoes it |
| Transforms.EncodeDeltaPrevious | bogvm/transforms.py:36-42 | the delta loop computes the differences |
| Transforms.DecodeDeltaPrevious | bogvm/transforms.py:75-81 | the decoding loop computes the running sums |
| Transforms.MoveToFrontKeepsAlphabet | bogvm/transforms.py:102-123 | `pop` and `insert(0)` keep the alphabet list a permutation of all 256 bytes |
| Transforms.AlphabetIsPermutation | bogvm/transforms.py:102-123 | in such a list every byte occurs, exactly once, so `index` always succeeds and is unambiguous |
| Transforms.PopInsert | bogvm/transforms.py:109-110 | the in-place list surgery moves one element to the front |
| Transforms.EncodeMtf | bogvm/transforms.py:102-111 | the move-to-front loop, alphabet updated as it goes |
| Transforms.DecodeMtf | bogvm/transforms.py:114-123 | the inverse loop |
| Transforms.MtfRoundTrip | bogvm/transforms.py:102-123 | move-to-front is a bijection on byte strings: each direction undoes the other |
| Transforms.TableHoldsPrefixes | bogvm/transforms.py:126-146 | after k rounds of prepend-and-sort the decoder table is exactly the k-byte prefixes of the sorted rotations |
| Transforms.DecodeBwt | bogvm/transforms.py:134-146 | the table-rebuilding loop, with its check of the primary index |
| Transforms.BwtRoundTrip | bogvm/transforms.py:126-146 | the Burrows-Wheeler decoder returns the input for every string, periodic ones with coinciding rotations included |
| Transforms.Invert | bogvm/transforms.py:60-95 | inversion keeps the length, and succeeds exactly when a BWT index is in range |
| Transforms.ApplyTransform | bogvm/transforms.py:21-57 | all seven branches compute the specified transform and parameter |
| Transforms.InvertTransform | bogvm/transforms.py:60-95 | all seven inverse branches, and the error |
| Transforms.TransformRoundTrip | bogvm/transforms.py:21-95 | whichever of the seven transforms is used, inverting it returns the input |
| ByteStrings.LexMeans | bogvm/transforms.py:126-131 | the order rotations, tables and ids are sorted in: a proper beginning first, else the smaller byte where two strings first differ |
| TransformMeaning.ApplyMeans | bogvm/transforms.py:21-57 | what each transform returns, in bits, sums, halves, recency and rotation order, with its parameter |
| TransformMeaning.BwtMeans | bogvm/transforms.py:126-131 | the BWT column is the last bytes of the rotations in that order, equal ones by number; its index is the number of rotations before the string |
| TransformMeaning.MtfMeans | bogvm/transforms.py:102-111 | move-to-front writes how many bytes were used more recently, unused ones counting by value |
| TransformMeaning.XorRestoredEncodes | bogvm/transforms.py:67-73 | the xor decoder is onto: encoding what it returns gives its input |
| TransformMeaning.DeltaRestoredEncodes | bogvm/transforms.py:75-81 | the same for the differences |
| PlanMeaning.FlatMeans | bogvm/bases.py:31-38 | the bytes of the four flat generators |
| PlanMeaning.RampMeans | bogvm/bases.py:34-41 | the ramps: where they start and how they go on |
| PlanMeaning.TriangleMeans | bogvm/bases.py:43-47 | the triangle climbs by 32 for four bytes and falls by 32 for four |
| PlanMeaning.SineMeans | bogvm/bases.py:49-53 | the eight heights of the sine |
| PlanMeaning.FourierMeans | bogvm/bases.py:55-64 | the eight heights of the fourier wave, each part rounded down |
| Bases.SynthesizeBasis | bogvm/bases.py:21-66 | every generator yields exactly the requested number of bytes |
| Optimizer.PatchesRestore | bogvm/optimizer.py:316-332 | patching a generated block with its differences restores the data |
| Optimizer.CountComplement | bogvm/optimizer.py:94-112 | a ramp misses exactly the bytes that do not suggest its start, which is why the histogram prunes the search |
| Optimizer.HistogramTotal | bogvm/optimizer.py:94-112 | the 256 counts of suggested starts add up to the number of bytes |
| Optimizer.BestHasFewestResiduals | bogvm/optimizer.py:36-112 | the chosen plan needs no more residuals than any basis at any start and any step, but for `fourier8_u8` with a nonzero step |
| Optimizer.FourierStepsAreNotSearched | bogvm/optimizer.py:94-112 | that exception is real at every start and every nonzero step: four bytes of the wave itself still cost the chosen plan residuals |
| Optimizer.NeverBeatenExactly | bogvm/optimizer.py:36-112 | hence no input makes a basis at a start and step cheaper than the chosen plan, if and only if it is not `fourier8_u8` with a nonzero step |
| Optimizer.UnusedBases | bogvm/optimizer.py:36-91 | the dictionary, run-length, ramp and fourier bases are never chosen |
| Optimizer.ResidualBounds | bogvm/optimizer.py:36-91 | at most n - 2 residuals for n >= 2 bytes, and at most n - ceil(n / 256) |
| Optimizer.BestIsConsistent | bogvm/optimizer.py:36-91 | the residual count of the winner is the one its basis and coefficients really cost |
| PlanMeaning.PatchesMean | bogvm/optimizer.py:36-91 | the residuals are the bytes at the differing offsets, one for each |
| PlanMeaning.BestIsLeast | bogvm/optimizer.py:36-91 | the chosen plan is the least of every basis, start and step, `fourier8_u8` with a step aside: residuals, then basis, then start, then step |
| Planner.PlanIsExact | bogvm/optimizer.py:36-91 | basis plus residuals of the plan rebuild the chunk byte for byte, residuals in strictly increasing order |
| Planner.CountStarts | bogvm/optimizer.py:97-110 | the counts array and the tie rule pick the lowest most frequent start |
| Planner.CoefficientTuplesForBasis | bogvm/optimizer.py:94-112 | the loops list exactly the coefficients tried for a basis |
| Planner.ApplyResiduals | bogvm/optimizer.py:316-332 | in-place patching succeeds exactly on in-range, strictly increasing offsets, and otherwise says which of the two fails first |
| Planner.AssertExactReconstruction | bogvm/optimizer.py:293-313 | the final check: patching errors first, then length, target digest, residual count, the bytes and the digest of the rebuilt chunk, each with its own error |
| PlanMeaning.ChecksMean | bogvm/optimizer.py:293-313 | which plans pass, and when each of the checks is the first to fail |
| PlanMeaning.FaultMeans | bogvm/optimizer.py:316-332 | residuals are out of order iff some patch is not above the one before it while those before are fine |
| Planner.OptimizeResidualPlan | bogvm/optimizer.py:36-91 | the whole search returns the plan with the least key; its closing checks always pass |
| Planner.EstimateDeltaResidualSize | bogvm/optimizer.py:271-279 | the size estimate of gap-coded residuals is the length of their encoding |
| Planner.ScoreReconstructionPlan | bogvm/optimizer.py:244-268 | the three costs of a plan |
| PlanMeaning.TotalMeans | bogvm/optimizer.py:244-268 | the charge of a plan with every constant: sixteen a byte of its form, two a residual, twice its transform, its length and its basis |
| Planner.SizeIsExact | bogvm/optimizer.py:244-268 | for chunks up to 128 bytes `container_size` is exactly what the encoder writes for the chunk outside a run |
| Planner.EncodingFitsEstimates | bogvm/container.py:197-249 | with BWT indices inside their chunks, as the planner makes them, a whole encoding is at most its header and the sum of the estimates of its chunks, and exactly that when and only when no run is written |
| Reader.VaruintExact | bogvm/container.py:811-840 | the varuint reader accepts exactly the minimal encodings of at most ten bytes |
| Reader.VaruintLength | bogvm/container.py:811-822 | an encoding has at most k bytes exactly when the value is below 128 to the k |
| FormatMeaning.VaruintDigit | bogvm/container.py:811-822 | byte i of a number is its digit of weight 128 to the i, the high bit set on all but the last |
| Reader.WriteVaruint | bogvm/container.py:811-822 | the encoding loop |
| Reader.VaruintSize | bogvm/optimizer.py:282-290 | the planner counts the bytes of an encoding without writing it |
| Reader.ByteReader.ReadByte | bogvm/container.py:848-853 | reads one byte and advances, or fails at the end without moving |
| Reader.ByteReader.ReadBytes | bogvm/container.py:855-860 | reads n bytes and advances, or fails |
| Reader.ByteReader.ReadVaruint | bogvm/container.py:825-840 | the decoding loop over the cursor returns what the pure parser returns and consumes the same bytes |
| ResidualCodec.GapsExact | bogvm/container.py:723-754 | the gap reader accepts exactly the encodings of residual lists of the stated count, range and order |
| ResidualCodec.ScanFindsOffsets | bogvm/container.py:757-775 | scanning a bitmask finds the patched offsets, in order |
| ResidualCodec.EncodedMaskIsClean | bogvm/container.py:732-739 | the bits past the chunk length are never set by the encoder |
| FormatLanguage.BitmaskExact | bogvm/container.py:757-775 | the bitmask reader accepts exactly the masks of residual lists with their values |
| FormatMeaning.GapsMean | bogvm/container.py:723-729 | a gap list is the gaps between successive offsets, each followed by its byte |
| FormatMeaning.BitmaskMeans | bogvm/container.py:732-739 | one bit an offset, lowest first, then the bytes by offset |
| FormatMeaning.ShorterIsWritten | bogvm/container.py:778-790 | the bitmask is written iff it is strictly shorter and there is something to write |
| ResidualCodec.ResidualsRoundTrip | bogvm/container.py:723-790 | whichever of the two encodings is shorter and chosen, reading it returns the residuals and leaves the rest |
| ResidualCodec.AppendGaps | bogvm/container.py:723-729 | the gap-writing loop |
| ResidualCodec.AppendBitmask | bogvm/container.py:732-739 | the mask array is filled in place, one bit for each residual |
| ResidualCodec.ReadGaps | bogvm/container.py:742-754 | the gap-reading loop over the cursor, errors included |
| ResidualCodec.ReadBitmask | bogvm/container.py:757-775 | the mask-reading loop, its count check and its check of unused bits |
| Containers.HexRoundTrip | bogvm/container.py:642-647 | a digest string survives the way through raw bytes |
| FormatMeaning.UnhexMeans | bogvm/container.py:197-249 | byte i of a digest is written by its digits 2i and 2i + 1, the high half first |
| Containers.ValidateContainer | bogvm/container.py:482-575 | validation accepts exactly contiguous, numbered chunks with ordered in-range residuals and matching totals |
| FormatMeaning.ValidMeans | bogvm/container.py:482-575 | which containers are valid: every number, place, digest, range and order, chunk by chunk |
| Containers.SynthesizeResidualChunk | bogvm/container.py:793-797 | patching the synthesized block in place gives the stored form of the chunk |
| BogpkCodec.ZeroResidualRunLength | bogvm/container.py:685-702 | the length of the run of equal residual-free chunks from a position on |
| BogpkCodec.EncodeSections | bogvm/container.py:205-236 | the two-section writing loop with runs, and the flag that says whether one was written |
| BogpkCodec.EncodeContainer | bogvm/container.py:197-249 | the encoder, all error returns included |
| BogpkCodec.ReadHeader | bogvm/container.py:252-286 | the header checks, in order |
| BogpkCodec.ReadDescriptors | bogvm/container.py:287-311 | the descriptor loop with run expansion |
| BogpkCodec.ReadChunks | bogvm/container.py:313-352 | the chunk loop: residuals, reconstruction, digests |
| BogpkCodec.DecodeContainer | bogvm/container.py:252-388 | the decoder, all error returns included |
| BogpkProofs.DescriptorsRoundTrip | bogvm/container.py:205-311 | the descriptor section reads back as one descriptor a chunk, runs expanded, whatever follows |
| BogpkProofs.ChunksRoundTrip | bogvm/container.py:205-352 | given its descriptors, the residual section reads back as the chunks with their digests |
| BogpkProofs.ParsesHeader | bogvm/container.py:238-286 | the header reads back |
| BogpkProofs.DecodesEncoded | bogvm/container.py:197-388 | every canonical container encodes, and decodes to itself |
| BogpkProofs.RoundTripExact | bogvm/container.py:197-388 | an encodable container survives the round trip if and only if it is canonical: full chunks but the last, true digests, no parameter outside BWT, sizes the format can hold |
| BogpkProofs.ShortFirstDoesNotSurvive | bogvm/container.py:197-388 | the condition is needed: a valid, encodable container with a short first chunk does not come back |
| BogpkProofs.DecodedIsCanonical | bogvm/container.py:252-388 | whatever the decoder returns is canonical, so its final validation cannot fail |
| BogpkProofs.ReencodingIsNormalForm | bogvm/container.py:197-388 | although several encodings decode to one container, decode-encode-decode equals decode |
| FormatLanguage.DecodesExactly | bogvm/container.py:252-388 | the language of the decoder: a string decodes to a container iff the container is canonical and the string is its header, items that name its chunks one by one or in runs, and the residuals of each in either form, nothing more |
| FormatMeaning.HeaderLayout | bogvm/container.py:238-249 | magic, version, flags and size code at fixed places, then three numbers and the digest |
| FormatMeaning.SingleLayout | bogvm/container.py:224-232 | the bytes of an item: packed byte, start, step, primary index, count |
| FormatMeaning.RunLayout | bogvm/container.py:213-222 | the bytes of a run |
| FormatMeaning.Codes | bogvm/container.py:650-658 | the codes of the seven transforms and the nine bases |
| Builder.OptimizeTransformedResidualPlan | bogvm/optimizer.py:185-241 | the tournament returns the winner by its score key; the reversibility check of each entrant and the closing checks are made and never fail |
| Builder.CheckWinner | bogvm/optimizer.py:235-240 | the closing checks, exact reconstruction of the stored bytes and the original digest after inversion, pass for every winner |
| Builder.WinnerIsCheapest | bogvm/optimizer.py:185-241 | no transform has a lower total cost than the winner |
| PlanMeaning.WinnerIsLeast | bogvm/optimizer.py:185-235 | the key of the winner is at most that of every transform: total cost, size, residuals, decoding, transform, place |
| Builder.BuildContainer | bogvm/optimizer.py:124-182 | the chunking loop, with or without the tournament, and the chunk-size errors |
| Builder.ReconstructContainer | bogvm/container.py:428-479 | the reconstruction loop with its three digest checks a chunk and the whole-file check |
| FormatMeaning.ContainerReconstructs | bogvm/container.py:428-479 | a container reconstructs to a string iff it is valid, the string is the joined chunks and has its digest |
| FormatMeaning.ChunkReconstructs | bogvm/container.py:445-470 | a chunk reconstructs iff its stored bytes have its first two digests and, inverted, its third |
| FormatMeaning.StoredMeans | bogvm/container.py:448-458 | stored bytes are the generated ones but at the patched offsets |
| Builder.BuiltIsSound | bogvm/container.py:114-163 | a built container is valid and true to its digests at any chunk size |
| Builder.UnpackUndoesPack | bogvm/container.py:428-479 | reconstructing a built container returns the input byte for byte, for every input and chunk size, whichever transforms won, with no assumption on collisions |
| Builder.FileRoundTrip | bogvm/container.py:166-388 | the same through the binary format: build, encode, decode, reconstruct |
| Builder.BuildAdaptive | bogvm/container.py:79-111 | the adaptive loop over the candidate chunk sizes |
| Builder.AdaptiveHasFewestResiduals | bogvm/container.py:79-111 | the selected chunk size has the fewest residuals of the candidates |
| PlanMeaning.AdaptiveIsLeast | bogvm/container.py:79-111 | and among equal ones the fewest chunks, and then the smaller size |
| Instructions.StreamRoundTrip | bogvm/instruction.py:15-27 | a packed program reads back as the same instructions |
| Instructions.StreamReadBack | bogvm/vm.py:119-140 | a stream is accepted exactly when it is whole instructions, and is the packing of what it reads back as |
| Instructions.StreamLayout | bogvm/instruction.py:15-27 | the place of every field of every instruction, high bytes first |
| AssemblyText.LinesReadBack | bogvm/assembler.py:240-243 | lines without breaks, each ended by a line feed, are exactly the lines `splitlines` finds |
| AssemblyText.PrintedReads | bogvm/assembler.py:15-16 | the cut at `#` leaves of any printed line the words in front of the first with a `#`, and the front part of that one |
| AssemblyText.ReadsBackExactly | bogvm/assembler.py:100-238 | for each of the 25 operations, a printed line reads back as itself if and only if no word of it holds a `#` |
| AssemblyText.CutLoadIsRefused | bogvm/assembler.py:180-182 | a `#` in the name leaves LOAD_COEFFICIENTS too few words |
| TextMeaning.SpacesMean | bogvm/assembler.py:15-16 | the code points that separate words, and those that end lines |
| TextMeaning.LineEnds | bogvm/assembler.py:240-243 | where any text breaks into lines; carriage return and line feed are one break |
| TextMeaning.OneLine | bogvm/assembler.py:240-243 | text without a break is one line, or none |
| TextMeaning.WordsMean | bogvm/assembler.py:105-106 | where any line breaks into words |
| TextMeaning.CutMeans | bogvm/assembler.py:15-16 | the cut falls at the first `#` |
| TextMeaning.CaseMeans | bogvm/assembler.py:106-121 | letters change case and nothing else does |
| TextMeaning.DigitAfter | bogvm/assembler.py:134-147 | numbers digit by digit, single underscores between digits passed over |
| TextMeaning.OneDigit | bogvm/assembler.py:134-147 | single digits, and what is no number |
| TextMeaning.SignsMean | bogvm/assembler.py:134-147 | signs of numbers |
| Assembler.Assembler.AddNode | bogvm/assembler.py:40-47 | a name keeps its id or gets the next one, up to 65536 names |
| Assembler.Assembler.AddConstant | bogvm/assembler.py:79-87 | the same for constants |
| Assembler.Assembler.EmitInstruction | bogvm/assembler.py:89-98 | one instruction appended, or refused outside 16 bits |
| Assembler.Assembler.ParseLine | bogvm/assembler.py:100-238 | the effect of a line of text on all tables and the code: comment cut, words, their count, names, numbers and ranges, with the error of the first check that fails |
| Assembler.Assembler.AssembleText | bogvm/assembler.py:240-243 | the loop over the lines of a text is the fold of the line effects |
| SaidChecks.EdgeChecks | bogvm/assembler.py:114-124 | a CREATE_EDGE line is accepted iff it has three words after the operation, two known nodes, one of the two kinds, and an id is left |
| SaidChecks.NodeChecks | bogvm/assembler.py:108-112 | when a CREATE_NODE line is accepted |
| SaidChecks.ClaimChecks | bogvm/assembler.py:126-132 | when a CREATE_CLAIM line is accepted |
| SaidChecks.ActivateChecks | bogvm/assembler.py:134-139 | when an ACTIVATE line is accepted |
| SaidChecks.PropagateChecks | bogvm/assembler.py:141-147 | when a PROPAGATE line is accepted |
| SaidChecks.DecayChecks | bogvm/assembler.py:149-152 | when a DECAY line is accepted |
| SaidChecks.ClaimOpChecks | bogvm/assembler.py:154-158 | when a line of one of the six claim operations is accepted |
| SaidChecks.BasisChecks | bogvm/assembler.py:169-173 | when a DECLARE_BASIS line is accepted |
| SaidChecks.BlockLineChecks | bogvm/assembler.py:175-178 | when a DATA_BLOCK line is accepted, and the id it gives |
| SaidChecks.LoadChecks | bogvm/assembler.py:180-191 | when a LOAD_COEFFICIENTS line is accepted |
| SaidChecks.StoreChecks | bogvm/assembler.py:218-226 | when a STORE_RESIDUAL line is accepted |
| SaidChecks.HashChecks | bogvm/assembler.py:199-204 | when a VERIFY_HASH line is accepted |
| SaidChecks.BlockOpChecks | bogvm/assembler.py:193-232 | when a line that names one block is accepted |
| SaidChecks.BareChecks | bogvm/assembler.py:160-167 | HALT, NOOP and the receipt lines always are |
| SaidChecks.OtherChecks | bogvm/assembler.py:100-106 | empty and comment lines have no effect; unknown operations are refused |
| SaidChecks.OperationWords | bogvm/assembler.py:105-238 | the operations are these 25 words |
| SaidLines.EdgeLineSays | bogvm/assembler.py:114-124 | the instruction of a CREATE_EDGE line: opcode 3, flag 1 for "support" and 2 for "conflict", the next edge number, source, target |
| SaidLines.ClaimLineSays | bogvm/assembler.py:126-132 | the instruction of a CREATE_CLAIM line: claim, source, target |
| SaidLines.PropagateLineSays | bogvm/assembler.py:141-147 | the instruction of a PROPAGATE line: kind flag, source, depth |
| SaidLines.LoadLineSays | bogvm/assembler.py:180-191 | the instruction of a LOAD_COEFFICIENTS line: step, block, start, length |
| SaidPrograms.EdgesAreSaid | bogvm/assembler.py:114-124 | the edges declared by the code of every beginning of an accepted text are those its CREATE_EDGE lines name: the ids of both names, Support for "support" and Conflict for "conflict" |
| AssembledPrograms.AssembledIsWellDeclared | bogvm/assembler.py:30-238 | in the program of every text the assembler accepts, each id was declared before use, edges are numbered in order, symbols are listed, and every instruction fits the byte layout |
| AssembledPrograms.AssembledNeverDangles | bogvm/vm.py:149-581 | hence the machine never fails on a missing key and is never blocked over an unknown opcode, symbol, node, edge type or coefficient |
| AssembledPrograms.AssembledPropagate | bogvm/vm.py:236-295 | PROPAGATE in an assembled program: each node becomes the greatest of its old activation and a times the number of walks of each length 1 to d; blocked, unchanged, exactly when a times all these walks exceeds the energy limit |
| AssembledPrograms.AssembledVerify | bogvm/vm.py:583-614 | VERIFY in an assembled program: rejected iff conflict pressure is recorded, else verified iff declared support edges lead from source to target |
| SaidPrograms.GraphIsSaid | bogvm/vm.py:167-202 | at every line of a run the graph is the list of edges named above, and its nodes those created above |
| SaidRuns.ClaimsAreSaid | bogvm/vm.py:204-221 | a claim is held with the source and target of the last line above that created it |
| SaidRuns.CreatesNode | bogvm/vm.py:167-172 | CREATE_NODE adds its node and changes nothing else |
| SaidRuns.CreatesEdge | bogvm/vm.py:174-202 | CREATE_EDGE changes the edges alone |
| SaidRuns.EntersClaim | bogvm/vm.py:204-221 | CREATE_CLAIM enters the claim with source and target as on its line |
| SaidRuns.Activates | bogvm/vm.py:223-234 | ACTIVATE sets a strength up to 1000, else it is blocked |
| SaidRuns.Propagates | bogvm/vm.py:236-295 | PROPAGATE on the edges named above, by walk counts, with the limit |
| SaidRuns.Decays | bogvm/vm.py:297-306 | DECAY scales every activation, rounding down, and drops zeros |
| SaidRuns.Interferes | bogvm/vm.py:308-340 | INTERFERE records as conflict the sum of the activations of the sources of the conflict edges named into the target, as support that of the target, as tension the smaller |
| SaidRuns.ComputesTension | bogvm/vm.py:342-354 | COMPUTE_TENSION: the smaller recorded pressure, 0 if none |
| SaidRuns.Verifies | bogvm/vm.py:356-364 | VERIFY: rejected if conflict pressure is recorded, else verified iff support edges named above lead from source to target |
| SaidRuns.ContradictionRejects | bogvm/vm.py:308-364 | a claim interfered with and later verified is rejected iff a conflict edge named above the interference led into its target from a node then active |
| SaidRuns.Decides | bogvm/vm.py:366-405 | ACCEPT, REJECT and QUARANTINE: when blocked, and the lists they change |
| SaidRuns.BareActs | bogvm/vm.py:563-571 | NOOP and LOG_RECEIPT do nothing, EMIT_RECEIPT emits |
| SaidRuns.RunStep | bogvm/vm.py:149-581 | a run goes line by line to HALT, to a blocked line, or to the end of the text |
| SaidRuns.RunStarts | bogvm/vm.py:146-150 | it starts with nothing |
| SaidData.BasisNames | bogvm/vm.py:407-414 | the names of the nine generators |
| SaidData.DeclaresBasis | bogvm/vm.py:407-414 | DECLARE_BASIS chooses the generator of its word, or is blocked |
| SaidData.Loads | bogvm/vm.py:416-441 | LOAD_COEFFICIENTS makes a block of the declared basis: start, step, length |
| SaidData.Stores | bogvm/vm.py:515-536 | STORE_RESIDUAL adds one patch in order, inside the block |
| SaidData.PatchAllMeans | bogvm/vm.py:538-561 | patching: refused iff a patch is outside; each byte is that of its last patch or stays |
| SaidData.ChecksHash | bogvm/vm.py:463-480 | VERIFY_HASH compares the digest of the present bytes with its word |
| SaidData.BlockActs | bogvm/vm.py:443-561 | SYNTHESIZE, APPLY_RESIDUAL, ACCEPT_DATA and REJECT_DATA: what they do and when they are blocked |
| Runs.StepKeepsSound | bogvm/vm.py:149-581 | every instruction keeps adjacency lists naming known edges and the result lists sorted without repeats |
| Runs.DataGate | bogvm/vm.py:463-496 | each accepted block was accepted by an ACCEPT_DATA whose latest earlier VERIFY_HASH found the bytes of that moment to hash to the named constant |
| Runs.ClaimGate | bogvm/vm.py:356-382 | each accepted claim was accepted after a latest VERIFY that returned verified |
| Runs.RunsAreGated | bogvm/vm.py:149-581 | both gates, and the order of the lists, for every run of any instruction stream, completed or blocked |
| VerifiedBytes.AcceptedBytesMatch | bogvm/vm.py:443-496 | if no LOAD_COEFFICIENTS, SYNTHESIZE or APPLY_RESIDUAL on an accepted block stands between its latest VERIFY_HASH and its acceptance, or a later point of the run, its bytes there hash to the named constant |
| VerifiedBytes.KeepsBytesExactly | bogvm/vm.py:407-561 | a piece of code keeps the bytes of a block, from every state at every position, if and only if it holds no such instruction on that block |
| VerifiedBytes.StaleAcceptance | bogvm/vm.py:443-496 | the condition is needed: a program that verifies a block, synthesizes it anew, accepts it and completes, with bytes of another digest |
| Propagation.PropagateCountsWalks | bogvm/vm.py:236-295 | the walk-counting meaning of PROPAGATE on any graph that lists its edges in order |
| Propagation.PeakIsGreatest | bogvm/vm.py:278-279 | the cumulative field is the greatest over the ticks |
| Vm.SupportPathExists | bogvm/vm.py:597-614 | the breadth-first search ends on every graph and answers exactly whether support edges lead from source to target |
| Vm.SortedKeysOf | bogvm/vm.py:257-278 | `sorted(keys())` |
| Vm.SpreadFrom | bogvm/vm.py:262-276 | the edge loop of one node, stopping at the energy limit |
| Vm.Tick | bogvm/vm.py:255-276 | one tick over the sorted frontier |
| Vm.Propagated | bogvm/vm.py:249-283 | the tick loop with cumulative field, frontier and energy |
| Vm.MergeInto | bogvm/vm.py:278-279 | the maximum merge into the cumulative field |
| Vm.DecayAll | bogvm/vm.py:297-306 | the decay loop, dropping what falls to 0 |
| Vm.ConflictInto | bogvm/vm.py:313-320 | the conflict pressure loop |
| Vm.PatchInPlace | bogvm/vm.py:538-561 | the patch loop on a byte array, refusing offsets out of range |
| Vm.BogVm.VerifyClaim | bogvm/vm.py:583-595 | the verdict on a claim |
| Vm.BogVm.RepairRejectedClaim | bogvm/vm.py:616-633 | a rejected claim is entered in both lists once |
| Vm.BogVm.ExecuteGraph | bogvm/vm.py:167-306 | the graph instructions change the tables as specified, or block and change nothing |
| Vm.BogVm.ExecuteClaim | bogvm/vm.py:204-405 | the claim instructions |
| Vm.BogVm.ExecuteData | bogvm/vm.py:407-561 | the data instructions |
| Vm.BogVm.Execute | bogvm/vm.py:152-571 | one turn of the instruction loop is one step of the machine |
| Vm.BogVm.RunProgram | bogvm/vm.py:149-581 | the loop is the specified run: halted, blocked with the state of that moment, or failed |
| Programs.ChunkNamesDiffer | bogvm/container.py:337 | chunk names with zero-padded numbers never coincide |
| Programs.PaddedLength | bogvm/container.py:337 | chunk numbers below 10000 have four digits, others their own |
| Programs.ChunkNameSays | bogvm/container.py:337 | a chunk name is the prefix, `_chunk_`, and the number |
| Programs.HeadersSay | bogvm/container.py:391-401 | the comments in front of a program, word for word |
| Programs.CompileContainer | bogvm/container.py:391-425 | the compiler writes the comments and the chunk blocks in order, or refuses an invalid container |
| Programs.PackBytes | bogvm/packer.py:15-38 | the single-block packer, refusing more than 65535 bytes and data names that are not one token |
| Programs.PackChunkedBytes | bogvm/packer.py:41-74 | the chunked packer, with the same refusal of names and its errors over the chunk size |
| ProgramText.UncutProgramAssembles | bogvm/assembler.py:100-243 | the text of a program, comments in front, assembles as the lines it was written from when no name holds a `#` |
| ProgramText.CutProgramIsRefused | bogvm/assembler.py:180-182 | it is refused when the name of its first chunk holds one |
| ProgramCode.ChunkAssembles | bogvm/assembler.py:169-232 | when the lines of one chunk assemble, and to which instructions |
| ProgramCode.ProgramAssembles | bogvm/assembler.py:65-98 | a chunk program assembles exactly within the 16-bit limits: 65536 chunks, 65536 different constants, blocks of 65535 bytes |
| ProgramRuns.PatchAllIsApply | bogvm/vm.py:538-561 | APPLY_RESIDUAL on ordered patches is what reconstruction does |
| ProgramRuns.StoredInOrder | bogvm/vm.py:515-536 | storing ordered patches one by one and sorting each time keeps them as they were |
| ProgramRuns.ChunkRuns | bogvm/vm.py:407-561 | the whole effect of the code of one chunk: accepted if its bytes have the digest, blocked otherwise |
| ProgramRuns.ProgramOutcome | bogvm/vm.py:407-581 | a chunk program completes with blocks 0 to n-1 accepted iff all match; else it is blocked at the first that does not, with exactly the earlier ones accepted |
| ProgramTheorems.CompiledContainerRuns | bogvm/container.py:391-425 | the compiled text of a valid container assembles iff it is within the 16-bit limits, and its run then agrees with reconstruction chunk by chunk |
| ProgramTheorems.ReconstructibleRuns | bogvm/container.py:428-479 | a container that reconstructs and is within the limits runs to completion |
| ProgramTheorems.PackedProgramCompletes | bogvm/packer.py:41-74 | for every data and every name the packer accepts, the packed text assembles iff there are no chunks, or the name holds no `#` and the limits hold; it then completes with every block accepted, and its blocks are the data |
| ProgramTheorems.CutNameIsRefused | bogvm/packer.py:98-100 | the packer accepts the name `a#b`, and the assembler refuses whatever is packed under it |
| ProgramTheorems.PackedBlockCompletes | bogvm/packer.py:15-38 | the single-block text of up to 65535 bytes assembles iff the name holds no `#`, and then completes with the data in its block |
| ProgramTheorems.PackedFits | bogvm/packer.py:41-74 | up to 65527 chunks are always within the limits |
| WorkspaceForms.RootReads | kernel/tools/gen_v40_workspace_vectors.py:38-47 | the bytes of a root determine it |
| WorkspaceForms.RecordsRead | kernel/tools/gen_v40_workspace_vectors.py:52-62 | a serialised object table reads in one way |
| WorkspaceForms.EntriesRead | kernel/tools/gen_v40_workspace_vectors.py:64-76 | a serialised path table, with its variable-length paths, reads in one way |
| Workspace.FindPath | kernel/tools/gen_v40_workspace_vectors.py:181-186 | the search over the path table |
| Workspace.ObjectTableHash | kernel/tools/gen_v40_workspace_vectors.py:52-62 | the hash loop over the sorted objects |
| Workspace.PathIndexHash | kernel/tools/gen_v40_workspace_vectors.py:64-76 | the hash loop over the sorted paths |
| Workspace.ApplyOperation | kernel/tools/gen_v40_workspace_vectors.py:188-237 | one operation on an edited copy: the new state, or the old one unchanged with the reason, in the order of the checks |
| WorkspaceMeaning.Acceptance | kernel/tools/gen_v40_workspace_vectors.py:188-237 | an operation is accepted iff it names the present root, a path of 1 to 256 bytes and its digest, at most 65536 bytes and the capability, and there is room and the path is, or is not, there |
| WorkspaceMeaning.Refusal | kernel/tools/gen_v40_workspace_vectors.py:188-219 | which of the eight reasons a refused operation is given |
| WorkspaceMeaning.Effect | kernel/tools/gen_v40_workspace_vectors.py:203-237 | the object it adds and the root it leaves, field by field |
| WorkspaceMeaning.EffectOnPaths | kernel/tools/gen_v40_workspace_vectors.py:203-226 | the path table after an accepted operation, field by field |
| WorkspaceMeaning.InitialMeans | kernel/tools/gen_v40_workspace_vectors.py:104-108 | the empty workspace |
| WorkspaceMeaning.AcceptedRequests | kernel/tools/gen_v40_workspace_vectors.py:188-237 | over runs: every accepted request carried the capability, a bounded size and the digest of its path |
| WorkspaceMeaning.ObjectTableOrder | kernel/tools/gen_v40_workspace_vectors.py:52-62 | objects are hashed in rising order of ids, each by kind, content, size and operation |
| WorkspaceMeaning.PathIndexOrder | kernel/tools/gen_v40_workspace_vectors.py:64-76 | paths are hashed in rising order, each by length, bytes and object |
| WorkspaceMeaning.RootLayout | kernel/tools/gen_v40_workspace_vectors.py:38-47 | the place of every field of a root |
| WorkspaceMeaning.PayloadLayout | kernel/tools/gen_v40_workspace_vectors.py:78-95 | the place of every field of a hashed operation |
| WorkspaceMeaning.LittleEndianDigit | kernel/tools/gen_v40_workspace_vectors.py:38-76 | byte i of a number is its digit of weight 256 to the i |
| WorkspaceRuns.StepEffect | kernel/tools/gen_v40_workspace_vectors.py:188-237 | when an operation is accepted in terms of the path map, and that it adds one object and redirects one path |
| WorkspaceRuns.RunKeeps | kernel/tools/gen_v40_workspace_vectors.py:188-237 | over every run: object count = accepted operations <= 128, path count = accepted creations, paths distinct and pointing at stored objects, the path map is the replay of what was accepted |
| WorkspaceRuns.RootsDiffer | kernel/tools/gen_v40_workspace_vectors.py:30-50 | without collisions a run never comes back to a root hash after an accepted operation |
| WorkspaceRuns.NoOperationTwice | kernel/tools/gen_v40_workspace_vectors.py:188-191 | hence no operation is accepted twice |
| WorkspaceRuns.ObjectIdsDiffer | kernel/tools/gen_v40_workspace_vectors.py:97-99 | and no two objects of a run share an id |
| WorkspaceRuns.RootIdentifiesContents | kernel/tools/gen_v40_workspace_vectors.py:38-76 | two reachable states with equal root hash hold the same objects and the same path map |
| WorkspaceRuns.ContentsDetermineTables | kernel/tools/gen_v40_workspace_vectors.py:52-76 | and equal contents give equal table hashes, whatever the order of insertion |
| Journal.JournalReads | kernel/tools/gen_v40_workspace_vectors.py:144-156 | the bytes of a journal entry determine it |
| Journal.JournalLayout | kernel/tools/gen_v40_workspace_vectors.py:144-156 | the place of every field of an entry |
| Journal.HeadAfterAppend | kernel/tools/gen_v40_workspace_vectors.py:161-163 | the head after an entry is its digest, linked to the head before |
| Journal.HeadAfterRollback | kernel/tools/gen_v40_workspace_vectors.py:176-179 | a rollback is an accepted entry from the present root to the target, under its own operation |
| Journal.VerifyJournalChain | kernel/tools/gen_v40_workspace_vectors.py:165-174 | the backward loop checks the chain |
| Journal.VerifiesExactlySuffixes | kernel/tools/gen_v40_workspace_vectors.py:144-179 | against the head any appends and rollbacks built, exactly the suffixes of the true history verify |
| Genesis.Ledger.RecordEvent | bogvm/genesis.py:467-484 | an entry numbered, linked to the last hash, hashed and signed is appended |
| Genesis.Ledger.StoreManifest | bogvm/genesis.py:548-558 | a manifest is filed under its hash and becomes current |
| Genesis.Ledger.WriteFile | bogvm/genesis.py:242-262 | the object, the manifest, the pointer and the receipt after a write |
| Genesis.Ledger.ReadFile | bogvm/genesis.py:264-278 | the bytes of the current state, and the receipt |
| Genesis.Ledger.RollbackTo | bogvm/genesis.py:280-301 | back to the root of an entry named by number, digits or hash, or recorded as blocked, or refused for an unknown entry |
| Genesis.Ledger.VerifyLedger | bogvm/genesis.py:486-510 | the list of failures and the ledger root |
| Genesis.Ledger.WalkLedger | bogvm/genesis.py:327-339 | the root replay loop |
| Genesis.Ledger.ReplaySession | bogvm/genesis.py:303-364 | the verdict of a replay and its receipt |
| GenesisRuns.CheckMeans | bogvm/genesis.py:486-510 | verification passes exactly when every entry is numbered, linked, hashed and signed |
| GenesisRuns.LedgerAlwaysVerifies | bogvm/genesis.py:467-510 | the ledger of every run verifies |
| GenesisRuns.LedgerRootIdentifies | bogvm/genesis.py:486-510 | two verifying ledgers with the same root hold the same receipts |
| GenesisReplay.PerformSteps | bogvm/genesis.py:242-301 | each operation records one event, and the event tells how the current root moved |
| GenesisReplay.ReplayExact | bogvm/genesis.py:303-364 | after a boot, replay verifies iff every blocked rollback is followed by a boot or a completed rollback before any write |
| GenesisReplay.BlockedRollbackBreaksReplay | bogvm/genesis.py:337-352 | a run whose replay fails: a rollback to a replay receipt |
| GenesisReplay.BlockedExactly | bogvm/genesis.py:280-290 | in a run a rollback is blocked iff it goes to a replay receipt or to a blocked rollback |
| GenesisReplay.RollbackRestores | bogvm/genesis.py:280-301 | rolling back to an entry at any later time restores the file map and the bytes of every path that held right after it |
| GenesisReplay.WriteThenRead | bogvm/genesis.py:242-278 | what was written is read back |
| GenesisFiles.WriteMeans | bogvm/genesis.py:242-262 | a write gives its path the digest and size of its data, and leaves every other path its reference and bytes |
| GenesisFiles.FilesAfter | bogvm/genesis.py:242-301 | over runs: a path holds the data of its last write since the last time the workspace went back, or what it held then |
| GenesisFiles.Records | bogvm/genesis.py:242-364 | the entry each operation adds, event and link, said by what was there before |
| GenesisFiles.ReplayMeans | bogvm/genesis.py:303-364 | on any ledger, replay verifies iff every entry is numbered, linked, hashed and signed, every write starts from the root before it and has its object, and the events lead to the current root |
| GenesisFiles.SelectorMeans | bogvm/genesis.py:521-531 | which entry a number or a word of digits names |
| PackageStore.VerifyInstalledPackage | bogvm/store.py:149-240 | the recursive check with its path-local seen set ends on every graph and returns the specified failures |
| PackageStore.VerifyDecides | bogvm/store.py:149-240 | completed iff every package reached is installed and in order and none reaches itself; diamonds are fine |
| PackageStore.Reported | bogvm/store.py:173-222 | each failure is reported for its own reason and no other |
| PackageStore.ReportedAlone | bogvm/store.py:157-178 | packages that are not installed, close a cycle, or have no readable receipt |
| PackageStore.InstallBundle | bogvm/store.py:79-146 | the checks of an installation in order, and the new index |
| PackageStore.InstalledVerifies | bogvm/store.py:79-146 | after an installation the package verifies iff no dependency led to its key before: always for a new key |
| PackageStore.ReplacementClosesCycle | bogvm/store.py:79-146 | an index of two verified packages, and a bundle replacing one, that every check accepts and that does not verify afterwards |
| PackageStore.OthersStayVerified | bogvm/store.py:79-146 | another verified package stays verified by an installation, of a new or a replaced key, iff it does not reach the key or none of the new dependencies does |
| Mesh.GroupBy | bogvm/mesh.py:82-90 | `setdefault(...).append`: keys in order of first appearance, members in order |
| Mesh.RankGroup | bogvm/mesh.py:88-100 | pressure, authority and ids of each value, ranked |
| Mesh.ResolveNamespace | bogvm/mesh.py:74-110 | filtering into valid and quarantined claims, grouping by context, ranking and decision |
| Mesh.SelectedExactly | bogvm/mesh.py:100-109 | selected iff the unique maximum by authority and then support; split iff the first two tie on both |
| Mesh.OrderDoesNotMatter | bogvm/mesh.py:74-110 | the outcome depends on which valid claims there are, not on their order |
| Mesh.EveryOutcome | bogvm/mesh.py:74-110 | for every outcome of a resolution: its candidates are those of the valid claims of its context, one is selected iff it is the unique maximum, and it is a split iff the first two tie |
| MeshMeaning.CandidateMeans | bogvm/mesh.py:82-100 | behind a candidate stand exactly the hashed, trusted, supported and scoped claims of the namespace for its value in its context: their support in all, their greatest authority, their ids in order |
| MeshMeaning.EveryClaim | bogvm/mesh.py:74-110 | every claim of the namespace is heard in the outcome of its context or quarantined |
| MeshMeaning.QuarantinedMeans | bogvm/mesh.py:74-81 | quarantined are exactly the claims of the namespace that may not speak |
| MeshMeaning.OutcomesInOrder | bogvm/mesh.py:85-100 | outcomes follow the order of contexts, candidates authority, support and hash |
| MeshMeaning.PolicyMeans | bogvm/mesh.py:101-110 | one candidate converges; a split selects none, else the first is selected |
| Mesh.SelectedStaysSelected | bogvm/mesh.py:74-110 | a further valid claim for the selected value, at any place of the listing and of any authority, leaves that value selected in the outcome of its context, with its support added and no less authority |
| Mesh.OtherContextsStay | bogvm/mesh.py:82-110 | a further valid claim changes the outcome of no other context |

## Left out

- JSON: container fields that repeat others (`name`, `residual_count`, tournament metadata), optional keys,
  type and sign checks of parsed JSON, and the schemas; a container here has exactly the remaining fields.
- The residual density in the plan keys: over one input it orders plans as the residual count does.
- SHA-256, Ed25519 and canonical JSON: parameters. `HexHash`, `InjectiveOn`, `Trusted` and their like are the
  assumptions made about them.
- Files, sockets, processes, command lines, locks and receipts on disk: the ledger directory is a sequence, the
  object and state directories are maps. The order of ledger file names, which is the order of sequence
  numbers below one million, is therefore taken for granted.
- Letters and digits beyond ASCII in the operations, edge kinds and numbers of assembly text, and in ledger
  selectors, and the limit on the length of a number: `upper`, `lower`, `int` and `isdigit` are those of ASCII.
- The receipt ledger and the receipts of the virtual machine: its state is what they report.
- Sorting an adjacency list again before walking it: the lists are kept sorted when an edge is added.
- Vm.BogVm.ExecuteClaim: does not say what is left in the tables when a key is missing, because the program then fails without a receipt.
- Assembler.Assembler.ParseLine: does not say what the tables hold after an error, because the assembler is dropped then.
- Registry synchronisation, locks, package installation and application runs in the Genesis ledger: their
  receipts neither move the root nor are looked at by the part of replay modelled here.
- `state-checkout` events of `bogvm/hypergenesis.py`: session replay does not interpret them.
- Genesis.Ledger.WalkLedger: has no branch for package-install and app-run entries, because no operation modelled here records them.
- Genesis.Ledger.ReplaySession: does not make the checks of the registry, the lock, installed packages, application runs and source receipts, because their files are not modelled.
- Mesh.ResolveNamespace: does not write the state file or the receipt, because files are left out; outcomes and quarantined ids are what they hold.
- Containers.ValidateContainer: has one error for all messages, and no tournament or transform metadata, because the container here does not repeat its fields there.
- Genesis.Ledger.WriteFile: takes paths as already checked by `_safe_path`.
- Workspace.ApplyOperation: takes states whose counters count their lists, as every reachable state does.
- Reading receipts, hashing directories and verifying archives of packages: what they find is part of a
  package's record.
- `swarm.py`, `bogboot.py`, `scripts/tsc.py`, the kernel and disk-image tools: they would add easy members only
  or are not Python logic.
- Edge weights: the machine gives every edge the weight 1000, so a spread is the value times 1000 over 1000.
