# Verified models of the BMS/VTM codec's self-contained algorithms

The codec reference software holds a number of small algorithms that are easy to run and hard to argue about: filters
that overwrite what they still have to read, bit-packed caches, index maps that must agree with lists, loops whose end
is not obvious. Each is modelled here in its own form, a class with the source's fields and loops where the source
changes state, and proved against a simple specification that has theorems of its own.

- **Bilateral filter** (`CrossFilter`, `Reciprocal`, `StridedBlock`, `BilateralFilter`). `CrossFilter` is the
  out-of-place filter in one line; `BilateralFilter` is the raster pass in place with its nine pixel cases. `Reciprocal`
  is the theory of the division table: an exact bound, for every number of fractional bits.
- **Adaptive loop filter** (`AlfSpec`, `AlfShape`, `AlfSymmetry`, `AlfCoeff`, `PicturePlane`, `AlfClassification`,
  `AlfFilter`, `AdaptiveLoopFilter`). `AlfSpec` defines classes and filters on unbounded pictures and says what they mean
  in terms of activities and ranges, `AlfShape` which coefficient weighs which neighbour; the other modules prove the
  symmetries of the pipeline, the rebuilding of coefficients, border extension as coordinate clamping, the windowed
  sums in place, and the whole filter from a slice to a picture.
- **Cache with tree-PLRU** (`Bits`, `PlruTree`, `PlruWord`, `CacheSet`, `CacheModel`). A tree of bits, the same tree
  packed in a 32-bit word, a set of lines as a state machine, and the class with its arrays. All theorems hold from
  every tree state, as the source never initialises it.
- **Coding structure** (`UnitGeometry`, `UnitIndex`, `UnitTraversal`, `CoeffStore`, `TransformUnits`, `CodingStructure`).
  Unit lists and index maps that answer alike, parents that answer outside, traversals along links between units of one
  owner, and a bump allocator that cannot overrun.
- **Bit writer and reader** (`BitSequence`, `BitStream`, `BitReader`). Both refine appending to and taking from a
  sequence of bits.
- **GOP structure checker** (`GopStructure`, `GopChecker`, `DpbSizes`). The simulation of coding order as functions on
  the table, the loop as a class, and the least admissible buffer sizes.
- **Decision trees** (`DecisionTrees`) and **picture output** (`DecoderOutput`, `DecApp`).

`Arithmetic`, `Clipping` and `Options` hold what several of them share.

Where the code and a plain reading of its intent part ways, the model follows the code, and the difference is a lemma
with its condition:

- filtering does not commute with transposing where the two activities are equal (`AlfSymmetry.EqualActivitiesBreakAlf`),
  and does wherever they differ (`AlfCommutesWithFlip`); the same holds for mirroring and the diagonal activities
  (`EqualDiagonalsBreakAlf`, `AlfCommutesWithMirror`);
- the replacement policy is not least recently used (`CacheSet.BigSetsAreNotLru`), except with one or two ways, and then
  it is (`LruIffSmall`);
- an output call loses a picture when the waiting pictures are not sorted (`DecoderOutput.UnsortedListsLosePictures`),
  and never does exactly when they are (`NothingIsLostIffInOrder`);
- checking only the first cell of a new unit does not keep units apart (`CoeffStore.FirstCellCheckIsNotEnough`), checking
  all its cells is exactly what does (`UnitIndex.WholeCheckIffApart`, `CoeffStore.WhollyCheckedIffPackable`);
- traversing prediction or transform units stops at the end of a coding unit (`CodingStructure.TwoCodingUnits`), so a
  part's units are visited exactly when one coding unit owns them all (`UnitTraversal.TraversalVisitsPart`);
- extra reference pictures that come later in display order are put in front of all others (`GopStructure.InsertionOrder`),
  and the generator does meet them (`GeneratedSetsCanBeDisordered`);
- a GOP table the checker accepts can still fail later (`GopStructure.VerifiedTablesCanFail`), and holds for ever exactly
  when it holds for a fixed number of pictures (`ValidForEverIff`);
- a reciprocal table entry is not exact for every dividend (`Reciprocal.InexactBeyondTheBound`), only up to a bound
  (`ExactIff`);
- peeking at bits leaves the count of bits read advanced (`BitReader.InputBitstream.PseudoRead`), and a shift of a zero
  value by 32 is zero.

`dafny verify dfyconfig.toml` checks the whole project.

## Model

| member | source | states |
|---|---|---|
| BilateralFilter.BilateralFilter.SmoothBlockBilateralFilter | source/Lib/CommonLib/BilateralFilter.cpp:162-516 | for every block of at least 2x2 and every admissible weight table the in-place raster pass leaves exactly the out-of-place five-point filter of the original samples, and nothing outside the block changes |
| BilateralFilter.BilateralFilter.Rows | source/Lib/CommonLib/BilateralFilter.cpp:219-514 | row after row, every sample written is the filtered one and every sample not yet written is still original |
| BilateralFilter.PixelSums | source/Lib/CommonLib/BilateralFilter.cpp:235-509 | at any column of any row the sums carried in the right pair and the row buffers, completed by the two new pairs, are the total weight and delta of the out-of-place filter |
| BilateralFilter.PixelA | source/Lib/CommonLib/BilateralFilter.cpp:235-263 | the top left case agrees with the filter's sums and hands the right and lower pair on |
| BilateralFilter.PixelB | source/Lib/CommonLib/BilateralFilter.cpp:270-298 | the top edge case, reusing the left pair, agrees with the filter's sums and hands both new pairs on |
| BilateralFilter.PixelC | source/Lib/CommonLib/BilateralFilter.cpp:307-328 | the top right case agrees with the filter's sums and hands the lower pair on |
| BilateralFilter.PixelD | source/Lib/CommonLib/BilateralFilter.cpp:337-366 | the left edge case, reusing the upper pair, agrees with the filter's sums and keeps the row buffers right |
| BilateralFilter.PixelE | source/Lib/CommonLib/BilateralFilter.cpp:375-402 | the interior case, reusing the left and the upper pair, agrees with the filter's sums and keeps the row buffers right for the row below |
| BilateralFilter.PixelF | source/Lib/CommonLib/BilateralFilter.cpp:408-432 | the right edge case agrees with the filter's sums and keeps the row buffers right |
| BilateralFilter.PixelG | source/Lib/CommonLib/BilateralFilter.cpp:442-462 | the bottom left case agrees with the filter's sums |
| BilateralFilter.PixelH | source/Lib/CommonLib/BilateralFilter.cpp:469-492 | the bottom edge case agrees with the filter's sums |
| BilateralFilter.PixelI | source/Lib/CommonLib/BilateralFilter.cpp:495-509 | the bottom right case, which computes no pair of its own, agrees with the filter's sums |
| BilateralFilter.BilateralFilter.BilateralFilterIntra | source/Lib/CommonLib/BilateralFilter.cpp:518-543 | the block of the reconstruction, contiguous or strided, reads back as its filtered block, and every position before it, after it and between its rows keeps its sample |
| BilateralFilter.BilateralFilter.BilateralFilterInter | source/Lib/CommonLib/BilateralFilter.cpp:545-580 | the new residual is the filtered clipped sum minus the prediction, and prediction plus new residual lies in the clip range although nothing is clipped again; where every sum is at or beyond one end of the range, every one becomes that end; positions outside the block's rows keep their samples |
| BilateralFilter.ClippedSumMeaning | source/Lib/CommonLib/BilateralFilter.cpp:545-560 | each sum of prediction and residual becomes the value in range nearest to it, and one beyond an end that end |
| Clipping.ClipIsNearest | source/Lib/CommonLib/CommonDef.h:484-486 | clipping gives the one value in range that no other value in range is nearer than |
| BilateralFilter.BilateralFilter.CenterIndexMeaning | source/Lib/CommonLib/BilateralFilter.cpp:164-189 | which centre weight a block uses: by both sides being sixteen or more, eight or more, or not, and by being inter |
| StridedBlock.PackedAt | source/Lib/CommonLib/BilateralFilter.cpp:525-540 | the sample of a copied block in column x and row j is the one j strides and x samples behind the block's first |
| BilateralFilter.BilateralFilter.CreateDivToMulLuts | source/Lib/CommonLib/BilateralFilter.cpp:103-130 | the search loop leaves in entry n the reciprocal rounded up at scale 2^(14 + floor(log2 n)), and the shift floor(log2 n) |
| BilateralFilter.BilateralFilter.SmoothedRounds | source/Lib/CommonLib/BilateralFilter.cpp:262-268 | multiplying, shifting and the sign trick together round delta / n half up, for both signs, whenever |delta| + n/2 is at most 8192 |
| CrossFilter.CrossStaysWithin | source/Lib/CommonLib/BilateralFilter.cpp:162-516 | a filtered sample lies between the least and the greatest of itself and its in-block neighbours |
| CrossFilter.CrossMeaning | source/Lib/CommonLib/BilateralFilter.cpp:162-516 | by columns and rows of the block: the step of a sample is the integer nearest to the weighted mean of its differences to the left, right, upper and lower neighbour inside the block, of two the larger, and no other integer is |
| CrossFilter.SampleFits | source/Lib/CommonLib/BilateralFilter.cpp:255-268 | with an admissible table every total weight indexes the reciprocal table and every dividend is within its exact range |
| CrossFilter.FitsIffEverySampleFits | source/Lib/CommonLib/BilateralFilter.cpp:132-158 | the bounds asked of table entries are exactly those under which the samples of every block fit the reciprocal table |
| Reciprocal.ExactIff | source/Lib/CommonLib/BilateralFilter.cpp:103-130 | for any number of fractional bits B and n < 2^B the table divides all of 0..X exactly if and only if floor((X+1)/n) times the excess of the entry is below the entry |
| Reciprocal.ExactToHalfScale | source/Lib/CommonLib/BilateralFilter.cpp:103-130 | for every B and every n < 2^B all dividends up to 2^(B-1) divide exactly |
| Reciprocal.InexactBeyondTheBound | source/Lib/CommonLib/BilateralFilter.cpp:103-130 | a dividend beyond the bound that is divided wrongly |
| Reciprocal.SignTrickRoundsHalfUp | source/Lib/CommonLib/BilateralFilter.cpp:265-268 | dividing the biased magnitude and restoring the sign is rounding half up |
| Reciprocal.RoundHalfUpIsNearest | source/Lib/CommonLib/BilateralFilter.cpp:262-268 | rounding half up gives the integer nearest to the quotient, of two equally near the larger, and only that one |
| AdaptiveLoopFilter.AdaptiveLoopFilter.ALFProcess | source/Lib/CommonLib/AdaptiveLoopFilter.cpp:68-139 | end to end: every sample of an enabled CTU becomes its class's filter applied to the picture before, with coordinates clamped to the picture; every other sample is unchanged. The filters are those rebuilt from the slice: luma by class, chroma with its six outer taps as coded and the centre that completes the gain |
| AdaptiveLoopFilter.AdaptiveLoopFilter.FilterLumaCtu | source/Lib/CommonLib/AdaptiveLoopFilter.cpp:103-120 | classifying and filtering one luma CTU changes exactly its samples, to the filtered picture's |
| AdaptiveLoopFilter.AdaptiveLoopFilter.LumaResult | source/Lib/CommonLib/AdaptiveLoopFilter.cpp:97-121 | one luma sample from the picture on: the activities of its block choose class and transposition, its class's coefficients give the sum, and the sample is the value in range nearest to the rounded sum |
| AdaptiveLoopFilter.AdaptiveLoopFilter.FilterCtus | source/Lib/CommonLib/AdaptiveLoopFilter.cpp:97-138 | visiting CTUs in raster order, cut off at the picture's edges, reaches every sample of all three planes once |
| AdaptiveLoopFilter.AdaptiveLoopFilter.FilterCtu | source/Lib/CommonLib/AdaptiveLoopFilter.cpp:97-138 | whatever CTUs have been visited before, visiting one makes its samples in all three planes what is wanted and changes no others |
| AdaptiveLoopFilter.AdaptiveLoopFilter.FilterExtendedInOrder | source/Lib/CommonLib/AdaptiveLoopFilter.cpp:97-138 | visited in any other order, and repeatedly, as long as none is left out, the CTUs give the same result in every sample as the raster order of the code |
| AdaptiveLoopFilter.FlatLumaIsFixed | source/Lib/CommonLib/AdaptiveLoopFilter.cpp:141-194 | with rebuilt coefficients a flat area in range is unchanged by the filter of whatever class |
| AlfSymmetry.AlfCommutesWithFlip | source/Lib/CommonLib/AdaptiveLoopFilter.cpp:385-460 | classifying and filtering the transposed picture gives the transposed output wherever vertical and horizontal activity differ |
| AlfSymmetry.AlfCommutesWithMirror | source/Lib/CommonLib/AdaptiveLoopFilter.cpp:385-460 | the same for the picture mirrored left to right wherever the two diagonal activities differ |
| AlfSymmetry.SampleOfBlockFlip | source/Lib/CommonLib/AdaptiveLoopFilter.cpp:539-626 | what the transposed picture filters to at every block: where the two activities differ the transposed output, where they are equal the output under the flipped transpose index |
| AlfSymmetry.SampleOfBlockMirror | source/Lib/CommonLib/AdaptiveLoopFilter.cpp:539-626 | the same for mirroring and the diagonal activities |
| AlfSymmetry.BlockClassFlip | source/Lib/CommonLib/AdaptiveLoopFilter.cpp:385-460 | the transposed block gets the same class, and its transpose index flips bit 0 if and only if vertical and horizontal activity differ |
| AlfSymmetry.BlockClassMirror | source/Lib/CommonLib/AdaptiveLoopFilter.cpp:385-460 | the mirrored block gets the same class, and its transpose index flips bit 1 if and only if the diagonal activities differ |
| AlfSymmetry.FilterFlip | source/Lib/CommonLib/AdaptiveLoopFilter.cpp:539-626 | flipping bit 0 of the transpose index is filtering the transposed picture, for both filter shapes |
| AlfSymmetry.FilterMirror | source/Lib/CommonLib/AdaptiveLoopFilter.cpp:539-626 | flipping bit 1 is filtering the mirrored picture |
| AlfSymmetry.EqualActivitiesBreakAlf | source/Lib/CommonLib/AdaptiveLoopFilter.cpp:392-404 | finite pictures of every size with equal activities at a block, on which filtering does not commute with transposing, so the condition is needed |
| AlfSymmetry.EqualActivitiesBreakFlip | source/Lib/CommonLib/AdaptiveLoopFilter.cpp:392-404 | the same for the filter of one block on the unbounded picture |
| AlfSymmetry.EqualDiagonalsBreakAlf | source/Lib/CommonLib/AdaptiveLoopFilter.cpp:392-404 | finite pictures of every size in whole blocks with equal diagonal activities at a block, on which filtering does not commute with mirroring, so that condition is needed as well |
| AlfSymmetry.BoxFlip | source/Lib/CommonLib/AdaptiveLoopFilter.cpp:312-388 | the window of Laplacians summed by rows is the transposed picture's window summed by columns |
| AlfSpec.ClassMeaning | source/Lib/CommonLib/AdaptiveLoopFilter.cpp:385-447 | from the four activities alone: the first five classes are without direction, the dominating pair differing by at most a factor of two; classes 5 to 14 are those where the diagonal pair dominates, 15 to 24 those where the other does, and the upper five of either ten those where twice the larger activity exceeds nine times the smaller |
| AlfSpec.ActivityMeaning | source/Lib/CommonLib/AdaptiveLoopFilter.cpp:388-394 | within a group of five the class is 0, 1, 2, 3 or 4 as 32 times the vertical and horizontal activity, shifted, is below 1, 2, 7, 15 or not |
| AlfSpec.NoDirectionIff | source/Lib/CommonLib/AdaptiveLoopFilter.cpp:396-447 | there is no direction exactly when neither pair of opposite directions differs by more than a factor of two or the block is flat in rows and columns |
| AlfSymmetry.TransposeBits | source/Lib/CommonLib/AdaptiveLoopFilter.cpp:396-460 | the transpose index has bit 0 exactly when vertical activity does not exceed horizontal, and bit 1 exactly when the first diagonal's does not exceed the second's |
| AlfSpec.LaplacianOfSpike | source/Lib/CommonLib/AdaptiveLoopFilter.cpp:336-349 | a single sample counts twice at its own place, once at its two neighbours in the direction and nowhere else |
| AlfSpec.LaplacianIsZeroIff | source/Lib/CommonLib/AdaptiveLoopFilter.cpp:336-349 | there is no activity at a sample exactly when the picture rises evenly through it in the direction |
| AlfSpec.ClampedIsNearest | source/Lib/CommonLib/AdaptiveLoopFilter.cpp:89-92 | beyond its border the picture has the sample at the nearest coordinates inside |
| AlfShape.ImpulseResponse | source/Lib/CommonLib/AdaptiveLoopFilter.cpp:589-623 | a picture with a single sample filters to that sample times the coefficient numbered by its place, or the opposite one, in raster order of the diamond, and to nothing outside it, for both shapes |
| AlfShape.FilterSumAdds | source/Lib/CommonLib/AdaptiveLoopFilter.cpp:589-623 | sums of pictures filter to the sums, so that the responses to single samples within reach are the whole filter |
| AlfSpec.Untransposed | source/Lib/CommonLib/AdaptiveLoopFilter.cpp:539-588 | transpose index 0 leaves the coefficients in their places |
| AlfSpec.RoundedIsNearest | source/Lib/CommonLib/AdaptiveLoopFilter.cpp:493-494 | the shifted sum is the integer nearest to sum / 512, of two the larger, and only that one |
| AlfSpec.FilteredSampleIsNearest | source/Lib/CommonLib/AdaptiveLoopFilter.cpp:625-626 | a filtered sample is the value in range nearest to the rounded sum |
| AlfSpec.LumaSampleCongruence | source/Lib/CommonLib/AdaptiveLoopFilter.cpp:274-650 | a filtered sample depends on the picture within seven samples only |
| AlfClassification.FillRow | source/Lib/CommonLib/AdaptiveLoopFilter.cpp:320-356 | one pass over a row of column pairs, overwriting the entry six columns back while later groups still read theirs, leaves in every fourth entry the sum over two rows of the 8-wide window |
| AlfClassification.RowsAreActivity | source/Lib/CommonLib/AdaptiveLoopFilter.cpp:385-388 | four row entries below one another are the direct sum of absolute Laplacians over the 8x8 window |
| AlfClassification.DeriveClassificationBlk | source/Lib/CommonLib/AdaptiveLoopFilter.cpp:292-464 | every 4x4 block of an area gets the class of the direct window sums around it |
| AlfClassification.DeriveClassification | source/Lib/CommonLib/AdaptiveLoopFilter.cpp:274-290 | after classifying tile by tile every block of the area has its own class, whatever the 32x32 tiling |
| AlfClassification.ClassesDoNotDependOnTiles | source/Lib/CommonLib/AdaptiveLoopFilter.cpp:274-290 | classified over two areas whose origins are whole blocks apart, a sample that is in both has the same class in both |
| AlfFilter.FilterBlk | source/Lib/CommonLib/AdaptiveLoopFilter.cpp:466-650 | every sample of the area becomes the filter and transposition its 4x4 block's class asks for; all others stay |
| AlfFilter.FilterAt | source/Lib/CommonLib/AdaptiveLoopFilter.cpp:589-626 | the row-by-row accumulation at one sample is the rounded symmetric weighted sum |
| AlfCoeff.ReconstructLumaCoeff | source/Lib/CommonLib/AdaptiveLoopFilter.cpp:141-194 | the rebuilt coefficients and what each class is handed; with bRedo all coded differences except the centre taps are back in the slice's array |
| AlfCoeff.ReconstructChromaCoeff | source/Lib/CommonLib/AdaptiveLoopFilter.cpp:141-178 | only the centre tap is rebuilt, and twice the outer taps plus the centre are 512 |
| AlfCoeff.RebuiltFiltersAreNormalised | source/Lib/CommonLib/AdaptiveLoopFilter.cpp:160-184 | every class whose filter was coded gets twice its outer taps plus the centre equal to 512 |
| AlfCoeff.DifferencesAreCoded | source/Lib/CommonLib/AdaptiveLoopFilter.cpp:150-193 | taking differences of rebuilt filters undoes the accumulation on every tap but the centre |
| AlfCoeff.TransposedKeepsGain | source/Lib/CommonLib/AdaptiveLoopFilter.cpp:539-588 | no transposition changes a filter's gain |
| AlfCoeff.NormalisedFilterShifts | source/Lib/CommonLib/AdaptiveLoopFilter.cpp:589-626 | a normalised filter under any transpose index commutes with adding a constant, before clipping |
| AlfCoeff.FlatAreasAreFixed | source/Lib/CommonLib/AdaptiveLoopFilter.cpp:589-640 | a normalised filter under any transpose index fixes flat regions in range |
| PicturePlane.Plane.ExtendBorderPel | source/Lib/CommonLib/Buffer.h:485-520 | border extension shows, over the whole margin on all four sides and corners, the picture with clamped coordinates |
| PicturePlane.Plane.CopyFrom | source/Lib/CommonLib/Buffer.h:302-334 | the copy shows the same picture |
| CacheModel.CacheModel.CacheAccess | source/Lib/CommonLib/CacheModel.cpp:387-428 | with counting on, the line is the stretch of 2^shift positions from the origin, counted modulo 2^64, that the address is in; only the set with the line's number modulo the number of sets changes, as the abstract set's access says, and it holds the line for the current picture and component afterwards; exactly one hit or one miss is counted and the invariants are kept; with counting off nothing changes |
| CacheModel.SizeTMeaning | source/Lib/CommonLib/CacheModel.cpp:390-394 | the offset from the origin is the difference of addresses up to multiples of 2^64 |
| CacheModel.CacheModel.Clear | source/Lib/CommonLib/CacheModel.cpp:218-228 | afterwards every set is empty and the counters agree, while the tree bits are what they were |
| CacheModel.CacheModel.AccumulateFrame | source/Lib/CommonLib/CacheModel.cpp:230-246 | the sequence totals grow by the frame's, and hits plus misses stay equal to accesses |
| CacheModel.CacheModel.XGetWayTreePlru | source/Lib/CommonLib/CacheModel.cpp:315-328 | the way found is the tree's victim and is marked as used; other sets' bits stay |
| CacheModel.CacheModel.XUpdatePlruStatus | source/Lib/CommonLib/CacheModel.cpp:330-343 | every node on the way's path is set towards it in the packed bits of this set, and no other bit changes |
| CacheModel.CacheModel.XGetWay | source/Lib/CommonLib/CacheModel.cpp:348-357 | with one way it is way zero, which is also what the walk of a tree without nodes finds |
| CacheModel.CacheModel.SetRefPicture | source/Lib/CommonLib/CacheModel.cpp:286-291 | afterwards two addresses have one key exactly when they lie in the same stretch of 2^shift positions from the picture's origin, and with another picture or component no address has a key that any had before, so nothing cached before can be hit |
| CacheModel.CacheModel.XUpdateCache | source/Lib/CommonLib/CacheModel.cpp:360-374 | exactly the victim's line is replaced, inside the cache, so the range check cannot fail |
| CacheModel.CacheModel.XIsCacheHit | source/Lib/CommonLib/CacheModel.cpp:293-311 | a hit is a valid line with the address, picture and component asked for |
| CacheSet.MissesReplaceWholeSet | source/Lib/CommonLib/CacheModel.cpp:315-374 | from any tree bits, as many misses in a row as there are ways replace every way, each key in its own way, and restore the tree bits |
| CacheSet.RecentKeySurvives | source/Lib/CommonLib/CacheModel.cpp:387-428 | after an access the next treeDepth accesses to the set, hits and misses in any mix, leave its key cached |
| CacheSet.RecentKeySurvivesWholeRun | source/Lib/CommonLib/CacheModel.cpp:387-428 | the same in any run of the whole cache with at most treeDepth accesses to the key's set |
| CacheSet.SurvivalIsTight | source/Lib/CommonLib/CacheModel.cpp:315-374 | one access more can evict it: in every full set treeDepth hits on other ways and one miss evict any chosen way |
| CacheSet.SmallSetsAreLru | source/Lib/CommonLib/CacheModel.cpp:315-428 | with one or two ways, from a cleared set and any tree bits, the trace of hits and misses is exactly LRU's |
| CacheSet.BigSetsAreNotLru | source/Lib/CommonLib/CacheModel.cpp:315-428 | with four ways or more, from every cleared set and any tree bits, some accesses hit under LRU and miss here |
| CacheSet.LruIffSmall | source/Lib/CommonLib/CacheModel.cpp:315-428 | the traces of all cleared sets are LRU's if and only if there are one or two ways |
| CacheSet.RunsStayConsistent | source/Lib/CommonLib/CacheModel.cpp:293-428 | in every run no key is cached twice in a set and every line sits in the set of its address modulo the line count |
| CacheSet.SetsRunAlone | source/Lib/CommonLib/CacheModel.cpp:387-428 | a set ends a run of the whole cache as if it had seen only its own accesses |
| PlruTree.FullTurnRestores | source/Lib/CommonLib/CacheModel.cpp:315-343 | after as many replacements as ways every tree bit is what it was |
| PlruTree.EveryWayOnce | source/Lib/CommonLib/CacheModel.cpp:315-343 | during such a turn every way is the victim exactly once |
| PlruTree.VictimIffExposed | source/Lib/CommonLib/CacheModel.cpp:315-328 | a way is the victim if and only if every bit on its path points at it |
| PlruTree.ExposureGrowsByOne | source/Lib/CommonLib/CacheModel.cpp:330-346 | a use makes at most one more bit on any path point at its way |
| PlruTree.SiblingsExpose | source/Lib/CommonLib/CacheModel.cpp:330-346 | uses of one way in each sibling subtree make any way the victim, from any tree |
| PlruWord.FullTurn | source/Lib/CommonLib/CacheModel.cpp:315-343 | the packed word is restored by a full turn that picks every way once, bits outside the tree included |
| PlruWord.SetBit | source/Lib/CommonLib/CacheModel.cpp:335-341 | masking and or-ing sets one bit and no other |
| PlruWord.BitsOfInjective | source/Lib/CommonLib/CacheModel.cpp:335-341 | the bits determine the word, so restoring every bit restores the word |
| PlruWord.TouchWordIsTouch | source/Lib/CommonLib/CacheModel.cpp:330-346 | the path update on packed bits is the update of the abstract tree |
| PlruWord.HighBitsStay | source/Lib/CommonLib/CacheModel.cpp:330-343 | the path update changes no bit at or above the number of ways minus one |
| CodingStructure.CodingStructure.LookupsAreSearches | source/Lib/CommonLib/CodingStructure.cpp:194-302 | at every position and through all parents, lookups through the index maps find the very unit that searching the unit lists finds; uncovered positions give none |
| CodingStructure.CodingStructure.InnermostAnswers | source/Lib/CommonLib/CodingStructure.cpp:194-272 | coding and prediction units are found in the innermost structure whose area contains the position: a unit of its list that contains it, or none if there is none |
| CodingStructure.CodingStructure.FirstToHaveAnswers | source/Lib/CommonLib/CodingStructure.cpp:274-302 | transform units are found in the first structure, going outwards, that contains the position and has such a unit or does not only encode transform units |
| CodingStructure.CodingStructure.OwnersMeaning | source/Lib/CommonLib/CodingStructure.cpp:358-367 | two units get the same coding unit as owner exactly when the same coding units contain both their corners |
| CodingStructure.CodingStructure.OwnerContains | source/Lib/CommonLib/CodingStructure.cpp:358-412 | the owner of a unit is a coding unit that contains its corner, or none if none does; where only transform units are encoded it is the first |
| CodingStructure.CodingStructure.UseSubStructure | source/Lib/CommonLib/CodingStructure.cpp:742-905 | the sub-structure's units are taken over behind the own ones, coding and prediction units unless it only encodes transform units, each transform unit with its own coefficients and each unit owned by a coding unit of the receiving structure; if own and taken lists are orderly and share no position, lookups go on being searches |
| CodingStructure.CodingStructure.AnswersAfterTakeOver | source/Lib/CommonLib/CodingStructure.cpp:742-905 | in an orderly structure, after taking over, lookups of coding, prediction and transform units give what a linear search over the own and then the taken list gives |
| CodingStructure.CodingStructure.LatestAfterTakeOver | source/Lib/CommonLib/CodingStructure.cpp:742-905 | in any structure, after taking over, the new units answer wherever they cover a position and all other answers are what they were |
| CodingStructure.CodingStructure.TraverseCUs | source/Lib/CommonLib/CodingStructure.cpp:503-511 | from the coding unit that the lookup at the area's corner gives, here or in an outer structure, along the links of its list to the first that is not inside the area |
| CodingStructure.CodingStructure.TraversePUs | source/Lib/CommonLib/CodingStructure.cpp:513-521 | the same for prediction units, whose links end where the owning coding unit changes |
| CodingStructure.CodingStructure.TraverseTUs | source/Lib/CommonLib/CodingStructure.cpp:523-531 | the same for transform units, also through the parent where a structure that only encodes them has none |
| CodingStructure.TwoCodingUnits | source/Lib/CommonLib/CodingStructure.cpp:358-382 | a structure with two coding units of one prediction unit each, in which traversing the prediction units of both areas ends after the first |
| CodingStructure.CodingStructure.AddCU | source/Lib/CommonLib/CodingStructure.cpp:304-356 | the list gains the unit, the invariants are kept, and no parent is touched |
| CodingStructure.CodingStructure.AddPU | source/Lib/CommonLib/CodingStructure.cpp:358-419 | the list gains the unit, its owner is the coding unit found at its corner, or the first one in a structure that only encodes transform units; the invariants are kept and no parent is touched |
| CodingStructure.CodingStructure.AddTU | source/Lib/CommonLib/CodingStructure.cpp:421-501 | the same for a transform unit that still fits the coefficient buffers |
| CodingStructure.CodingStructure.ClearTUs | source/Lib/CommonLib/CodingStructure.cpp:1026-1050 | list, map and offsets start over |
| CodingStructure.CodingStructure.ClearCUs | source/Lib/CommonLib/CodingStructure.cpp:1069-1079 | no coding unit is left, and no parent is touched |
| CodingStructure.CodingStructure.ClearPUs | source/Lib/CommonLib/CodingStructure.cpp:1052-1067 | no prediction unit is left, and no parent is touched |
| CodingStructure.CreateTop | source/Lib/CommonLib/CodingStructure.cpp:577-640 | a structure without a parent, empty and consistent |
| CodingStructure.InitSubStructure | source/Lib/CommonLib/CodingStructure.cpp:681-740 | a new inner structure answers through its parent and starts with analogues of its units only when it encodes transform units, all owned by its first coding unit |
| UnitIndex.UnitIndex.Add | source/Lib/CommonLib/CodingStructure.cpp:304-419 | list and map stay in agreement: every entry of the map is the latest unit covering its cell |
| UnitIndex.UnitIndex.Clear | source/Lib/CommonLib/CodingStructure.cpp:1052-1079 | the maps are emptied completely |
| UnitIndex.UnitIndex.EntryIsLinearSearch | source/Lib/CommonLib/CodingStructure.cpp:194-302 | for aligned, pairwise disjoint units the map's entry is the result of a linear search |
| UnitIndex.LatestIsLinearSearch | source/Lib/CommonLib/CodingStructure.cpp:194-302 | for aligned, disjoint units searching cells from the end finds the unit that contains the position |
| UnitIndex.AddedUnitsAnswer | source/Lib/CommonLib/CodingStructure.cpp:742-905 | a list appended to another answers for the cells it covers and changes nothing elsewhere |
| UnitIndex.WholeCheckIffApart | source/Lib/CommonLib/CodingStructure.cpp:346-352 | for aligned units the map is empty at every cell of a new unit if and only if the unit shares no position with any unit in the list |
| UnitIndex.WhollyCheckedIffDisjoint | source/Lib/CommonLib/CodingStructure.cpp:346-352 | a list of aligned units passed that check one by one if and only if no two of its units share a position |
| UnitIndex.UnitIndex.DisjointUnitsFit | source/Lib/CommonLib/CodingStructure.cpp:346-352 | a unit inside the area that shares no position with aligned units already there never trips the check the code makes |
| UnitIndex.UnitIndex.DisjointListIsFree | source/Lib/CommonLib/CodingStructure.cpp:858-893 | nor does any unit of a list taken over that shares no position with the list there |
| UnitTraversal.Follow | source/Lib/CommonLib/CodingStructure.cpp:503-531 | the loop over the links stops exactly where the list ends, the owner changes or a unit is not inside the area |
| UnitTraversal.TraversalVisitsPart | source/Lib/CommonLib/CodingStructure.cpp:513-531 | when the units are the leaves of a tree of splits in coding order, traversing the area of any part starts at its first unit and visits its units up to the first owned by another coding unit: exactly that part's units if and only if they have one owner |
| UnitTraversal.CodingUnitsVisitPart | source/Lib/CommonLib/CodingStructure.cpp:503-511 | for coding units, which are always linked, exactly the part's units are visited, in order |
| UnitTraversal.TwoOwnersCutTraversal | source/Lib/CommonLib/CodingStructure.cpp:379-382 | two units of different coding units, both inside an area, of which the traversal visits only the first |
| UnitTraversal.VisitsExactlyRuns | source/Lib/CommonLib/CodingStructure.cpp:503-531 | for any list: exactly the units inside the area are visited if and only if they are one run of one owner that the unit at the corner begins |
| UnitTraversal.CheckContains | source/Lib/CommonLib/Unit.cpp:158-173 | inside means inside in every component that both have, and that there is one |
| UnitTraversal.PartIsAStretch | source/Lib/CommonLib/CodingStructure.cpp:503-531 | the units of any part of a tree of splits are one stretch of the list, and none before or behind it lies inside the part |
| UnitTraversal.LeavesAreDisjoint | source/Lib/CommonLib/CodingStructure.cpp:304-356 | units made by splitting share no position, so the index maps answer like a linear search |
| UnitGeometry.ScaledContains | source/Lib/CommonLib/Common.h:101-152 | on aligned areas containing a position and containing its grid cell are the same |
| UnitGeometry.ContainsAreaMeaning | source/Lib/CommonLib/Common.h:93-96 | corners inside means every position inside |
| UnitGeometry.ScaledSize | source/Lib/CommonLib/CodingStructure.cpp:1052-1079 | scaling the area's size once and scaling width and height give the same number of entries on aligned areas |
| UnitGeometry.DisjointAreasFit | source/Lib/CommonLib/CodingStructure.cpp:659-670 | pairwise disjoint areas inside another are together no larger than it |
| CoeffStore.CoeffStore.Allocate | source/Lib/CommonLib/CodingStructure.cpp:421-501 | the slices handed out begin where the earlier units' end, and the running offset never exceeds the buffer |
| CoeffStore.PackableFits | source/Lib/CommonLib/CodingStructure.cpp:659-670 | units pairwise disjoint and inside the component's area need no more coefficients than it has samples |
| CoeffStore.SlicesAreDisjoint | source/Lib/CommonLib/CodingStructure.cpp:421-501 | two units' slices of a component do not overlap |
| CoeffStore.FirstCellCheckIsNotEnough | source/Lib/CommonLib/CodingStructure.cpp:421-501 | checking only a unit's first cell, as the code does, admits overlapping units that overrun the buffer |
| CoeffStore.WhollyCheckedIffPackable | source/Lib/CommonLib/CodingStructure.cpp:421-501 | aligned units inside the area keep the offsets in order exactly when each passed a check of all its cells: the condition under which the code's check suffices |
| CoeffStore.WholeCheckIsEnough | source/Lib/CommonLib/CodingStructure.cpp:421-501 | units that passed the check of all their cells need no more coefficients than the buffer has |
| TransformUnits.TransformUnits.AddAll | source/Lib/CommonLib/CodingStructure.cpp:742-905 | units taken over bring exactly their own coefficients and disturb no others |
| TransformUnits.TransformUnits.CopyCoeffs | source/Lib/CommonLib/Unit.cpp:574-600 | copying one unit's coefficients changes its slice in every component and nothing else |
| BitStream.OutputBitstream.Write | source/Lib/CommonLib/BitStream.cpp:110-152 | appends the low n bits, most significant first; refused exactly when n exceeds 32 or the value does not fit |
| BitStream.OutputBitstream.AddSubstream | source/Lib/CommonLib/BitStream.cpp:177-190 | appends exactly the substream's bits, aligned or not |
| BitStream.OutputBitstream.WriteByteAlignment | source/Lib/CommonLib/BitStream.cpp:192-196 | appends a one and the zeros up to the byte boundary (section 7.3.2.12 of ITU-T H.265) |
| BitStream.OutputBitstream.WriteAlignOne | source/Lib/CommonLib/BitStream.cpp:154-159 | fills the last byte with ones |
| BitStream.OutputBitstream.WriteAlignZero | source/Lib/CommonLib/BitStream.cpp:161-169 | fills the last byte with zeros |
| BitReader.SameBitsSameBytes | source/Lib/CommonLib/BitStream.cpp:110-190 | the bits written determine the bytes and the bits held back, however they were cut into calls |
| BitReader.InputBitstream.Read | source/Lib/CommonLib/BitStream.cpp:254-314 | takes the next n bits; fails exactly when n exceeds 32 or too few bits are left |
| BitReader.MaskLowIsLow | source/Lib/CommonLib/BitStream.cpp:262-268 | the mask applied to the held byte leaves exactly its low bits |
| BitReader.MaskLowIsMod | source/Lib/CommonLib/BitStream.cpp:262-268 | in numbers that is the remainder modulo 2^n |
| BitSequence.BitFromFront | source/Lib/CommonLib/BitStream.cpp:110-165 | bit k of a field of n is the one worth 2^(n-1-k) |
| BitReader.InputBitstream.PseudoRead | source/Lib/CommonLib/BitStream.cpp:238-251 | peeks at the next bits, zeros beyond the end; position and held bits are restored but the count of bits read advances |
| BitReader.InputBitstream.ExtractSubstream | source/Lib/CommonLib/BitStream.cpp:357-393 | cuts off exactly the next n bits when n are left; at a byte boundary whole bytes beyond the end read as zeros |
| BitReader.PaddedMeaning | source/Lib/CommonLib/BitStream.cpp:357-393 | what is cut off is whole bytes: the bits asked for as far as there are any, then zeros |
| BitReader.InputBitstream.ReadByteAlignment | source/Lib/CommonLib/BitStream.cpp:395-409 | succeeds exactly on a one followed by zeros up to the boundary, and consumes them |
| BitReader.AlignmentPattern | source/Lib/CommonLib/BitStream.cpp:395-409 | the alignment pattern is a one and then only zeros |
| BitReader.RoundTrip | source/Lib/CommonLib/BitStream.cpp:110-314 | fields written at any bit position, aligned, and read back with the same widths come back, and the alignment is consumed to the last bit |
| BitReader.TakeBits | source/Lib/CommonLib/BitStream.cpp:270-313 | the word assembled from held and loaded bits spells the next n bits and leaves the rest held |
| BitStream.FlushContents | source/Lib/CommonLib/BitStream.cpp:122-151 | bytes pushed plus bits held afterwards are the bits held before plus the bits given |
| GopChecker.GopChecker.Verify | source/App/EncoderApp/EncAppCfg.cpp:2665-2863 | for every GOP table the loop ends; it reports an error exactly when the last picture coded failed, and otherwise stops at the first picture after which every position has been seen complete; the extra entries hold the sets made, and the marks in the table are exactly those of the pictures coded |
| GopChecker.GopChecker.Round | source/App/EncoderApp/EncAppCfg.cpp:2667-2862 | one picture: an error exactly when the entry is missing or a reference picture is unavailable, the marks gain those of this picture, and without an error list, counts and extra sets are those of the next picture |
| GopChecker.GopChecker.CheckRefs | source/App/EncoderApp/EncAppCfg.cpp:2684-2727 | what is missing or lies before the start, and exactly which entries get marked as referenced and which flags of the entry change to what |
| GopChecker.GopChecker.MakeExtra | source/App/EncoderApp/EncAppCfg.cpp:2744-2846 | the extra entry has the reference set of the model, keeps the flags of what it takes over, uses all it adds, and is predicted from the entry before it; exactly the entries filled in are marked as referenced |
| GopChecker.GopChecker.TakeAvailable | source/App/EncoderApp/EncAppCfg.cpp:2746-2756 | the references that are not negative, in order, each with its flag |
| GopChecker.GopChecker.PredictFrom | source/App/EncoderApp/EncAppCfg.cpp:2818-2845 | the codes that select this set from the entry before it |
| GopChecker.GopChecker.KeepRefs | source/App/EncoderApp/EncAppCfg.cpp:2850-2861 | what is kept are the references that are not negative and the picture itself |
| GopChecker.GopChecker.Position | source/App/EncoderApp/EncAppCfg.cpp:2667-2672 | table position and picture order count, for every multiple factor |
| GopChecker.GopChecker.FillUp | source/App/EncoderApp/EncAppCfg.cpp:2757-2807 | stepping backwards through coding order adds exactly the useful pictures until there are enough, and marks exactly the entries of the same layer it added |
| GopChecker.InsertRef | source/App/EncoderApp/EncAppCfg.cpp:2783-2805 | the shift loop inserts at the first place with a smaller or a positive difference |
| GopChecker.GopChecker.AllSeen | source/App/EncoderApp/EncAppCfg.cpp:2665-2863 | without a failure every table position has been seen complete one GOP after references can no longer have negative POCs |
| GopStructure.OnlyCodedPicturesAreKept | source/App/EncoderApp/EncAppCfg.cpp:2665-2863 | before any failure the simulated list holds only pictures already coded, or POC 0, and 1 for fields |
| GopStructure.CodedMeaning | source/App/EncoderApp/EncAppCfg.cpp:2611-2617 | what already coded means, spelled out over the pictures before |
| GopStructure.PocMeaning | source/App/EncoderApp/EncAppCfg.cpp:2667-2672 | the POC of picture n is the span times n divided by the GOP size, plus that of its table entry |
| GopStructure.CompleteMeaning | source/App/EncoderApp/EncAppCfg.cpp:2680-2724 | a picture is complete exactly when each of its references has a POC that is not negative and is in the list |
| GopStructure.FailsMeaning | source/App/EncoderApp/EncAppCfg.cpp:2673-2716 | a picture fails exactly when its entry has a negative POC or one of its references has a POC that is not negative and not in the list |
| GopStructure.NoFailureMeaning | source/App/EncoderApp/EncAppCfg.cpp:2665-2863 | no failure among n pictures means that none of them fails |
| GopStructure.ListMeaning | source/App/EncoderApp/EncAppCfg.cpp:2850-2863 | the list begins with POC 0, and 1 for fields, and after a picture holds exactly it and the references of its set that are not negative |
| GopStructure.SeenIff | source/App/EncoderApp/EncAppCfg.cpp:2717-2729 | a position is seen among n pictures exactly when one of them is at it and complete |
| GopStructure.SeenAtMeaning | source/App/EncoderApp/EncAppCfg.cpp:2717-2729 | that is, a picture of that position has each of its references, not negative, in the list |
| GopStructure.RefIsAvailable | source/App/EncoderApp/EncAppCfg.cpp:2742-2808 | every reference picture of a generated set is in the list and not negative |
| GopStructure.FilledIsDistinct | source/App/EncoderApp/EncAppCfg.cpp:2757-2807 | filling up repeats no picture |
| GopStructure.RefsAreDistinct | source/App/EncoderApp/EncAppCfg.cpp:2742-2808 | the set of a picture, from the table or made for it, repeats no picture if its entry's set does not |
| GopStructure.FilledIsComplete | source/App/EncoderApp/EncAppCfg.cpp:2757-2807 | if there are still not enough pictures at the end, no picture coded before is useful any more |
| GopStructure.MadeSetKeeps | source/App/EncoderApp/EncAppCfg.cpp:2725-2741 | a set made for a picture keeps every reference of its entry's that has no negative POC |
| GopStructure.MadeSetIsLatest | source/App/EncoderApp/EncAppCfg.cpp:2742-2808 | anything else in it is a picture coded before, in the list, not negative and in no higher temporal layer; and no picture coded after that one with these properties is left out |
| GopStructure.MadeSetLeavesNoneOut | source/App/EncoderApp/EncAppCfg.cpp:2742-2808 | if it still has fewer pictures than the entry wants active, it has every picture coded before that is in the list, not negative and in no higher temporal layer |
| GopStructure.AvailableStaysOrdered | source/App/EncoderApp/EncAppCfg.cpp:2730-2741 | leaving out references keeps the others in order |
| GopChecker.FilledRefersMeaning | source/App/EncoderApp/EncAppCfg.cpp:2757-2807 | filling up marks only entries of this layer that have a picture coded before, not in the set it began with and in the set it made |
| GopChecker.VerdictMeaning | source/App/EncoderApp/EncAppCfg.cpp:2696-2708 | the flag of a found reference is decided by the last entry that stands for it |
| GopChecker.FlagsMeaning | source/App/EncoderApp/EncAppCfg.cpp:2728-2805 | in a set made for a picture the references taken over have the flags they had and those added are used |
| GopChecker.RemainderMeaning | source/App/EncoderApp/EncAppCfg.cpp:2696-2702 | the remainder of C: smaller than the divisor in magnitude and with the dividend's sign |
| GopChecker.MarksNext | source/App/EncoderApp/EncAppCfg.cpp:2696-2807 | the marks after a picture are those before and those it makes |
| GopStructure.FilledLength | source/App/EncoderApp/EncAppCfg.cpp:2757-2811 | filling up stops at the number of active references, at most one picture beyond what was there |
| GopStructure.InsertionOrder | source/App/EncoderApp/EncAppCfg.cpp:2785-2805 | inserting keeps the order of differences if and only if the picture is earlier or comes before all later ones: a later picture goes in front of everything |
| GopStructure.GeneratedSetsCanBeDisordered | source/App/EncoderApp/EncAppCfg.cpp:2785-2805 | a GOP table whose second picture gets a set that is not in order, so the generator reaches the failing case |
| GopStructure.VerifiedTablesCanFail | source/App/EncoderApp/EncAppCfg.cpp:2665-2863 | a GOP table that the check accepts after five pictures and whose sixth picture misses a reference |
| GopStructure.ValidForEverIff | source/App/EncoderApp/EncAppCfg.cpp:2665-2863 | no picture of an endless run fails if and only if none fails up to one GOP and one picture past the point from which references cannot be negative |
| GopStructure.NothingBeforeI | source/App/EncoderApp/EncAppCfg.cpp:2684-2693 | from a computable picture on no reference can lie before the start |
| GopStructure.PredictionSelects | source/App/EncoderApp/EncAppCfg.cpp:2818-2845 | the codes of a predicted set select exactly the part of it among the candidates |
| GopStructure.CandidatesMeaning | source/App/EncoderApp/EncAppCfg.cpp:2818-2826 | the candidates are the picture of the set predicted from and the pictures it refers to |
| GopStructure.PredictionFlags | source/App/EncoderApp/EncAppCfg.cpp:2827-2842 | the code of a candidate in the set is 1 if it is used and 2 if it is not |
| DpbSizes.SizeBuffers | source/App/EncoderApp/EncAppCfg.cpp:2875-2931 | the sizes chosen cover the table, are consistent over the layers, and are in no layer larger than those of any other admissible choice |
| DpbSizes.MakeConsistent | source/App/EncoderApp/EncAppCfg.cpp:2908-2931 | the fix-up in place leaves prefix maxima, with room for reordering |
| DpbSizes.CountReorder | source/App/EncoderApp/EncAppCfg.cpp:2886-2902 | the loops give the reordering of the table's picture |
| DpbSizes.ReorderMeaning | source/App/EncoderApp/EncAppCfg.cpp:2886-2902 | that is the number of pictures of no higher layer that are shown after it although coded before one that is shown no later than it |
| DpbSizes.HighestMeaning | source/App/EncoderApp/EncAppCfg.cpp:2886-2893 | the first loop finds the last picture in coding order that is shown no later |
| DecisionTrees.Compile | source/Lib/CommonLib/BinaryDecisionTree.cpp:125-143 | the arrays hold every node at its slot and nothing else, the root first, what it leads to for 1 next and what it leads to for 0 half way on; the tree can be rebuilt from them, and mapping inverts unique identifiers |
| DecisionTrees.NodeIsAtItsSlot | source/Lib/CommonLib/BinaryDecisionTree.cpp:98-123 | every node lies inside the range of its tree, at the slot of its path |
| DecisionTrees.SlotOfNext | source/Lib/CommonLib/BinaryDecisionTree.cpp:98-123 | below a node, 1 leads to the next slot and 0 to the one 2^depth further on |
| DecisionTrees.SlotsAreDistinct | source/Lib/CommonLib/BinaryDecisionTree.cpp:98-123 | different paths have different slots |
| DecisionTrees.SameIdSameSlot | source/Lib/CommonLib/BinaryDecisionTree.cpp:125-143 | with unique identifiers a slot is determined by the identifier in it |
| DecisionTrees.RebuildGivesTheTree | source/Lib/CommonLib/BinaryDecisionTree.cpp:98-123 | the arrays determine the tree |
| DecisionTrees.DecisionTree.Reduce | source/Lib/CommonLib/BinaryDecisionTree.cpp:168-185 | afterwards each node is available exactly when some outcome below it was |
| DecisionTrees.AvailableMeaning | source/Lib/CommonLib/BinaryDecisionTree.cpp:168-185 | available below means there is a path of decisions to an available outcome |
| DecisionTrees.DecisionTreeTemplate.MapIds | source/Lib/CommonLib/BinaryDecisionTree.cpp:133-141 | of equal identifiers the last position stays, and identifiers that are too large are not mapped |
| DecisionTrees.DecideBoth | source/Lib/CommonLib/BinaryDecisionTree.cpp:70-77 | the decision leads to the first tree for 0 and to the second for 1, and the recorded depth is the height of the tree built, so compiling has room for it |
| DecisionTrees.DecideOutcomes | source/Lib/CommonLib/BinaryDecisionTree.cpp:54-61 | the decision leads to the first outcome for 0 and to the second for 1, and the recorded depth is the height, here one |
| DecisionTrees.DecideLeft | source/Lib/CommonLib/BinaryDecisionTree.cpp:62-69 | the same with a tree for 0 and an outcome for 1 |
| DecisionTrees.DecideRight | source/Lib/CommonLib/BinaryDecisionTree.cpp:78-85 | the same with an outcome for 0 and a tree for 1 |
| DecisionTrees.DecisionTree.SetAvail | source/Lib/CommonLib/BinaryDecisionTree.cpp:153-158 | in a template compiled from a tree with unique identifiers the node with this identifier gets the availability and every other node keeps its own |
| DecisionTrees.DecisionTree.ReduceAll | source/Lib/CommonLib/BinaryDecisionTree.cpp:168-185 | called on a whole compiled tree, every node is available exactly when some outcome below it was |
| DecApp.DecApp.WriteOutput | source/App/DecoderApp/DecApp.cpp:319-485 | the pass over the picture list in place, first counting and then writing, has the outcome of the abstract pass, and the output file gains exactly the pictures written, in order |
| DecApp.DecApp.FlushOutput | source/App/DecoderApp/DecApp.cpp:490-612 | every needed picture is written to the file in list order and the list is emptied |
| DecoderOutput.OutputInOrder | source/App/DecoderApp/DecApp.cpp:433-485 | when the waiting pictures are sorted by POC a call writes a smallest-POC prefix of them and stops with none waiting or both limits met (section C.5.2.4 of ITU-T H.265) |
| DecoderOutput.NothingIsLostIffInOrder | source/App/DecoderApp/DecApp.cpp:433-485 | under all limits what a call writes and what still waits are together what waited before, if and only if the waiting pictures are sorted by POC; other pictures of the list may be anywhere |
| DecoderOutput.SortedListsWaitInOrder | source/App/DecoderApp/DecApp.cpp:433-485 | a list sorted by POC meets that condition |
| DecoderOutput.WrittenPocsIncrease | source/App/DecoderApp/DecApp.cpp:433-485 | on any list a call writes strictly increasing POCs beyond the last one written |
| DecoderOutput.EveryWriteIsJustified | source/App/DecoderApp/DecApp.cpp:433-485 | no picture is written before a limit makes it necessary |
| DecoderOutput.CountersStayTrue | source/App/DecoderApp/DecApp.cpp:362-453 | through the whole pass the counters are at least what still waits and is held, so they are never negative and comparing them with unsigned limits is comparing numbers |
| DecoderOutput.CountsMeaning | source/App/DecoderApp/DecApp.cpp:345-362 | the counts a call starts from are the number of pictures that wait, and of those that wait or are referenced |
| DecoderOutput.PassLeaves | source/App/DecoderApp/DecApp.cpp:433-485 | a pass leaves each picture in its place, as it was or written: no longer needed, and reconstructed only if it was and is referenced |
| DecoderOutput.UnsortedListsLosePictures | source/App/DecoderApp/DecApp.cpp:433-485 | a picture that is passed over and no longer waits although it is needed |
| DecoderOutput.EveryRunKeepsInv | source/App/DecoderApp/DecApp.cpp:345-612 | over every run of arrivals, reference changes, releases, output calls and flushes the invariant holds |
| DecoderOutput.EveryNeededPictureIsWrittenOnce | source/App/DecoderApp/DecApp.cpp:345-612 | no picture is written twice, between flushes POCs strictly increase, and a run that ends in a flush has written every needed picture exactly once |

## Left out

- AdaptiveLoopFilter.AdaptiveLoopFilter.ALFProcess: planes are two-dimensional arrays with a margin instead of pointers with strides, and a picture has three components; a picture without chroma is not modelled.
- AlfSpec.ClassMeaning: integers are unbounded, so the overflow that the products of the direction comparison can have in 32 bits, and the wrap-around of 16-bit samples, are not modelled.
- BilateralFilter.BilateralFilter.SmoothBlockBilateralFilter: the floating-point tables are any tables within the bounds the integer code relies on; `FitsIffEverySampleFits` shows that these are the bounds needed. Blocks whose centre weight index would lie beyond the five entries of its table, inter blocks of 16 or more on both sides, are not passed to it.
- CodingStructure.CodingStructure.UseSubStructure: takes over units and coefficients; copying motion, prediction, reconstruction and residual buffers, the `isDecomp` map and cost figures is plumbing without a property of its own.
- CodingStructure.CodingStructure.AddCU: a unit is known by its place in its list, so a prediction or transform unit that still refers to a coding unit after that unit's list has been emptied is not modelled; the links from a coding unit to its first and last prediction and transform unit are not modelled either.
- CodingStructure.CodingStructure.AddPU: a prediction unit at whose corner there is no coding unit is added without an owner; the source would follow a null pointer there. The channel type a unit is stored with is represented by the owner it leads to.
- TransformUnits.TransformUnits.CopyCoeffs: the PCM buffer, which has the same offsets as the coefficients, and the flags copied beside them are not modelled.
- UnitIndex.UnitIndex.Add: index maps are two-dimensional arrays instead of pointers with strides, and units are values without object caches.
- GopChecker.GopChecker.Verify: the table and the reference pictures of an entry are unbounded lists, without the capacity of 16 pictures and the maximum GOP size; fields of an entry that the loop only copies are left out, and marking a picture that occurs twice in the list is done once, with the same effect.
- DecApp.DecApp.WriteOutput: frame pictures only; the limits of the highest temporal layer are parameters, and writing the samples is appending to a list. Field-mode output adds pairing rules over the same counters.
- BitReader.RoundTrip: emulation prevention bytes, start code counting, trailing bits and `insertAt` are not modelled.
- CacheModel.CacheModel.CacheAccess: the number of ways is a power of two up to 32, as the source assumes; configuration, printing and the power computation are not modelled.
- DecisionTrees.Compile: context identifiers are not modelled; they are set like availability.
- Vectorised variants of the filters, their function pointers, and the adaptive loop filter of the other build configuration.
- The wavefront-parallel parts, tracing, statistics, and lambda and rate computations.
- Everything of the encoder configuration outside the GOP structure, and the decoder library behind the application.
