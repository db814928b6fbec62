# A Dafny model of the sjm image-classification toolkit

This project models, in Dafny, the computational core of the sjm toolkit. The toolkit turns dense SIFT descriptors into visual codebooks, spatial pyramids and nearest-neighbour classifications:

- **Codebook builder** (`codebook_builder.dfy`, module `Codebooks`, with the k-means pieces in `kmeans.dfy`, module `KMeans`). A class `CodebookBuilder` holds a row store that grows by doubling. `AddData` keeps each descriptor whose draw is below the percentage and appends two location columns when location weighting is on. The store is truncated before clustering. Seeding is random, k-means++ or k-means++ on a 10% subsample, with a running weight table and an early-exit distance update. The Lloyd step, the quality metric and the sorted cluster sizes are also modelled.
- **Sparse kernels** (`spatial_pyramid_kernel.dfy`, module `SpatialPyramidKernel`): `Dot`, `HistogramIntersection`, `LinearKernel`, the spatial-pyramid-match weighting of `SpmKernel`, and `UnrollHistograms`. Each is a two-cursor loop proved against a sum over shared indices.
- **Spatial pyramid builder** (`spatial_pyramid_builder.dfy`, module `PyramidBuilder`). It covers dictionary validation in `Init`, the level geometry and the half-open cell rule. It also covers capped `k` and the normalised soft weights. Average and max pooling are modelled, and so are the per-dictionary index offsets in `BuildPyramid` and `BuildSingleLevel`.
- **Classifiers**:
  - `nbnn_classifier.dfy` (module `Nbnn`): the naive-Bayes nearest-neighbour classifier.
  - `merged_classifier.dfy` (module `Merged`): the merged-index classifier, with its own growable labelled store.
  - `category_choice.dfy` (module `CategoryChoice`): the query subsampling and the argmin over class totals, with its tie-break, which both classifiers share.
- **Descriptor utilities** (`sift_util.dfy`, module `SiftUtil`). It covers the conversion of a descriptor to a weighted byte array, in both C++ and Python, and the two-frame length-prefixed `.sift` file layout with its round trip. It also covers descriptor-set merging and counting, and the sampling loop of `load_array_from_files`.
- **Small helpers**:
  - `util.dfy` (module `Util`): `expand_user`, string splitting, the line filter and `extensionCheck`.
  - `trainer_cli.dfy` (module `TrainerCli`): the stop rule and argmax of the c search, the cross-validation fold split, and the gram-matrix fill and sub-matrix extraction.
  - `caltech_util.dfy` (module `CaltechUtil`): the train/test split, the extraction list, and the re-extraction decision with its command line.
- `common.dfy` (module `Common`) holds the shared result types, sums, `std::string` ordering, ordered-set insertion and the doubling rule.

The code's external collaborators are replaced by inputs:
- The nearest-neighbour index (FLANN) is an oracle input: its answers are parameters that satisfy the index's contract, with in-range indices and non-negative distances.
- Random number generators are input sequences of draws or permutations.
- Files, environment variables and glob results are maps and sequences passed in.
- `float` and `double` are `real`.
- A `CHECK` or `LOG(FATAL)` is a `Fail`/`Fatal` result, and undefined behaviour is a precondition.

## Model

| member | source | states |
|---|---|---|
| Common.InsertSorted | naive_bayes_nearest_neighbor/merged_classifier.h:57 | inserting into the class set keeps it strictly ascending, adds the name exactly when it was absent and holds nothing else |
| Common.GrownBounds | naive_bayes_nearest_neighbor/merged_classifier.h:82-98 | the doubled capacity holds the required rows, never shrinks, is unchanged when it already sufficed, and otherwise stays below twice the requirement |
| Util.ExpandUser | util/util.h:38-49 | a path that is empty or does not start with '~' comes back unchanged; a leading '~' that is neither the whole path nor followed by '/' is fatal, and only then |
| Util.ExpandUserReplacesTilde | util/util.h:42-46 | for a well-formed '~' path only the first character is replaced: by HOME when set, else by USERPROFILE, and with neither set the path is unchanged |
| Util.ExpandUserTwice | util/util.h:70 | expanding a second time (the line reader expands twice) changes nothing when the home directory does not itself start with '~' |
| Util.Split | util/util.h:28-33 | splitting always yields at least one token, so the empty string gives one empty token |
| Util.SplitShape | util/util.h:28-33 | there is exactly one more token than separator occurrences, and no token holds a separator |
| Util.JoinSplit | util/util.h:28-33 | with one separator character, joining the tokens back restores the input |
| Util.SplitJoin | util/util.h:28-33 | splitting a join of separator-free tokens gives the tokens back, in order and with empty ones kept |
| Util.NonEmpty | util/util.h:73-77 | the line filter keeps at most as many lines as it is given, and every kept line is non-empty |
| Util.NonEmptyKeepsExactly | util/util.h:73-77 | a line is kept iff it occurs in the input and is non-empty, and kept plus dropped lines account for every input line |
| Util.ReadLinesFromFile | util/util.h:65-78 | the result lines are non-empty and contain no newline; a missing file or a malformed '~' path is fatal |
| Util.ToLower | util/util.h:106 | the lower-cased copy has the same length, and each character is lower-cased on its own ('A'..'Z' only) |
| Util.ExtensionCheck | util/util.h:104-107 | true only when the lower-cased query is a member of the set |
| Util.ExtensionCheckCase | util/util.h:104-107 | a lower-case query matches iff it is a member; queries that differ only in case are treated alike; a member holding upper case never matches, since the set itself is not lower-cased |
| SiftUtil.NarrowAll | sift/sift_util.cc:104-106 | each bin is narrowed to uint8, position by position |
| SiftUtil.WeightedArray | sift/sift_util.cc:96-114 | the length is the bin count, plus 2 iff alpha > 0; the first entries are the narrowed bins, and with alpha > 0 the last two are the rounded weighted x and y |
| SiftUtil.ConvertToWeightedArray | sift/sift_util.cc:96-114 | the conversion into the caller's buffer returns the dimension count, writes exactly the weighted array into the first entries, and leaves every later entry unchanged |
| SiftUtil.WeightedArrayValues | sift/sift_util.cc:104-112 | bins that fit a byte are copied unchanged, and a location in [0, 1] becomes floor(x*127*alpha + 0.5), at most 127*alpha + 0.5 |
| SiftUtil.PyWeightedArray | sift/sift_util.py:110-118 | the script's array has length len(bin) + (0 if alpha == 0 else 2) |
| SiftUtil.PyAndCppConversions | sift/sift_util.py:96-120 | the script's and the C++ conversions agree for alpha >= 0; for a negative alpha the script's array is the C++ array followed by two zeros |
| SiftUtil.EncodeInt32 | sift/sift_util.cc:53-57 | a frame length is written as four bytes |
| SiftUtil.Int32RoundTrip | sift/sift_util.cc:55-57 | decoding an encoded non-negative 32-bit length gives it back |
| SiftUtil.DecodeEncodeInt32 | sift/sift_util.cc:65-66 | four bytes that read as a non-negative length are exactly that length's encoding |
| SiftUtil.EncodeFrames | sift/sift_util.cc:45-60 | the file is 8 bytes of length prefixes plus both payloads |
| SiftUtil.FramesRoundTrip | sift/sift_util.cc:62-94 | reading the first frame of a written file gives the parameters, and skipping it and reading the second gives the descriptor set |
| SiftUtil.FramesDecodeEncode | sift/sift_util.cc:62-94 | a file whose two frames both read back, with nothing after them, is exactly the encoding of those two payloads |
| SiftUtil.WriteDescriptorSetToFile | sift/sift_util.cc:45-60 | after the write the named file holds both frames, and every other file is unchanged |
| SiftUtil.ReadDescriptorSetFromFile | sift/sift_util.cc:76-94 | a successful read means that the home-expanded name exists and the result is its second frame, which replaces the caller's set entirely |
| SiftUtil.WriteThenRead | sift/sift_util.cc:45-94 | writing a set and reading it back under a plain name returns the written payload |
| SiftUtil.AllDescriptors | sift/sift_util.py:74-78 | the concatenated descriptors number exactly the sum of the per-file counts |
| SiftUtil.CountInListAppend | sift/sift_util.py:74-78 | the count of a concatenated list is the sum of the two counts, so the empty list counts 0 |
| SiftUtil.MergeDescriptorSets | sift/sift_util.py:80-94 | the merged set holds every descriptor of every set in input order, and its size is the sum of the counts. Its parameters are present iff the list is non-empty: they are the last set's, or the message defaults when the last set's were never set, because CopyFrom marks the field present |
| SiftUtil.PercentageToLoad | sift/sift_util.py:152-158 | the share to load lies in [0, 1] for any non-negative cap |
| SiftUtil.Sample | sift/sift_util.py:164-166 | the sampling uses at most one draw per descriptor, keeps at most the draws used, and never keeps more than a non-negative cap |
| SiftUtil.SampleKeepsAll | sift/sift_util.py:164-166 | with every draw below the share and a cap no smaller than the input, every descriptor is kept, in order |
| SiftUtil.LoadsEverything | sift/sift_util.py:128-132 | with no cap, or a cap at least the number available, every descriptor of every file is loaded |
| SiftUtil.MatrixRow | sift/sift_util.py:146-173 | a matrix row is 128 columns wide, or 130 when alpha != 0 |
| SiftUtil.MatrixRowIsConversion | sift/sift_util.py:170-173 | a 128-bin descriptor's matrix row is the script's own weighted-array conversion |
| SiftUtil.MatrixRows | sift/sift_util.py:170-173 | one row per descriptor, each the descriptor's matrix row |
| SiftUtil.Grow | sift/sift_util.py:168-169 | the resize doubles the rows, keeps the old rows and zero-fills the new ones |
| SiftUtil.SampleStep | sift/sift_util.py:164-174 | one more descriptor is skipped when the cap is reached, kept when its draw is below the share, and otherwise only uses a draw |
| SiftUtil.WriteRow | sift/sift_util.py:170-173 | the row written into a zero row is the descriptor's matrix row |
| SiftUtil.AppendRow | sift/sift_util.py:168-174 | writing a kept descriptor grows the matrix when it is full, fails exactly when the bins cannot fill the 128 columns, and otherwise stores its row at p_index |
| SiftUtil.LoadOne | sift/sift_util.py:164-174 | one step of the inner loop keeps the matrix equal to the rows of the sampled descriptors; it fails only when the descriptor it keeps cannot fill the 128 columns |
| SiftUtil.LoadFile | sift/sift_util.py:164-174 | the loop over one file keeps the matrix equal to the rows of the sampled descriptors; it fails only when a kept descriptor cannot fill the 128 columns |
| SiftUtil.SampleKeptPrefix | sift/sift_util.py:164-174 | sampling more descriptors only appends to the kept ones |
| SiftUtil.UnshapedPersists | sift/sift_util.py:164-174 | once a kept descriptor cannot fill the columns, the load fails whatever descriptors follow |
| SiftUtil.AllDescriptorsPrefix | sift/sift_util.py:160-164 | the descriptors of the first files come first among all the descriptors |
| SiftUtil.LoadArrayFromFiles | sift/sift_util.py:122-180 | over the decoded descriptor sets of the files, the load succeeds iff the cap is absent or non-negative and every kept descriptor fills the 128 columns; the result is then exactly the rows of the sampled descriptors, in order, no more than the cap, each 128 or 130 columns wide |
| KMeans.PartialSqDist | codebooks/codebook_builder.cc:296-306 | the squared distance accumulated over the first m coordinates is never negative |
| KMeans.PartialSqDistMonotone | codebooks/codebook_builder.cc:301-305 | adding coordinates never shrinks the partial distance, so the early exit only abandons sums that would end above the weight |
| KMeans.MinSqDist | codebooks/codebook_builder.cc:257-311 | the distance from a point to its nearest chosen centre is never negative |
| KMeans.MinSqDistIsMinimum | codebooks/codebook_builder.cc:257-311 | the nearest-centre distance is at most the distance to every chosen centre and equals one of them |
| KMeans.Weights | codebooks/codebook_builder.cc:257-311 | the weight table D2 has one entry per candidate of the pool |
| KMeans.WeightsExtend | codebooks/codebook_builder.cc:292-311 | one more centre lowers each candidate's weight to its distance from that centre when that is smaller, and otherwise leaves it |
| KMeans.InsertInt | codebooks/codebook_builder.cc:227-233 | inserting into the ascending std::set keeps it ascending and adds exactly the new value |
| KMeans.InsertIntSize | codebooks/codebook_builder.cc:229-233 | inserting a present row number changes nothing, and an absent one grows the set by one |
| KMeans.Seen | codebooks/codebook_builder.cc:227-238 | the set the subsampling loop builds holds exactly the distinct draws, ascending |
| KMeans.SubsampleSize | codebooks/codebook_builder.cc:219-220 | the subsampled pool size round(0.1 n) lies in [0, n], and is at least 1 exactly when n >= 5 |
| KMeans.ShortestPrefix | codebooks/codebook_builder.cc:229-234 | the number of draws the subsampling loop consumes lies between its start and the number of draws |
| KMeans.ShortestPrefixIs | codebooks/codebook_builder.cc:229-234 | the loop stops at the first prefix of the draws that holds enough distinct rows |
| KMeans.SubsampleRows | codebooks/codebook_builder.cc:226-238 | the subsampled pool is exactly the requested number of distinct rows in [0, n), ascending, namely the distinct draws of the shortest prefix that holds enough of them |
| KMeans.DrawDistinct | codebooks/codebook_builder.cc:229-234 | the drawing loop stops at the first prefix with the requested number of distinct values and returns those values |
| KMeans.AllRows | codebooks/codebook_builder.cc:239-243 | plain k-means++ uses every row 0..n-1 as a candidate, in order |
| KMeans.InitialWeights | codebooks/codebook_builder.cc:257-269 | after the first centre, D2[i] is candidate i's squared distance to it, and the total is the sum of D2 |
| KMeans.PickNextCenter | codebooks/codebook_builder.cc:277-285 | the scan returns the first position whose running weight total reaches the draw, and -1 only when the draw exceeds every running total |
| KMeans.RouletteFinds | codebooks/codebook_builder.cc:287 | a draw no greater than the weight total always finds a position, so the CHECK after the scan cannot fail |
| KMeans.RouletteUnique | codebooks/codebook_builder.cc:278-285 | at most one position satisfies the scan's stopping rule |
| KMeans.RoulettePicksPositiveWeight | codebooks/codebook_builder.cc:278-285 | a positive draw never stops on a zero weight |
| KMeans.PositiveWeightIsNewCentre | codebooks/codebook_builder.cc:278-289 | a candidate with positive weight differs from every chosen centre, so k-means++ does not pick an existing centre with a positive draw |
| KMeans.UpdateWeights | codebooks/codebook_builder.cc:292-311 | the early-exit update leaves D2[i] = min(old D2[i], full squared distance to the new centre) for every candidate, and the total is the new sum |
| KMeans.PrunedSqDist | codebooks/codebook_builder.cc:296-305 | the inner distance loop that breaks once the running sum exceeds the current weight: a result below the weight is the full squared distance, and otherwise the full distance is not below the weight either |
| KMeans.WeightsAfterUpdate | codebooks/codebook_builder.cc:292-311 | the updated weights are exactly the weight table for the centres plus the new one |
| KMeans.WeightsNonNegative | codebooks/codebook_builder.cc:257-311 | every weight is non-negative |
| KMeans.Centres | codebooks/codebook_builder.cc:245-290 | centre c is a copy of the row of the c-th picked pool position |
| KMeans.CentresExtend | codebooks/codebook_builder.cc:288-289 | picking one more position appends exactly that candidate's row to the centres |
| KMeans.StepFromScan | codebooks/codebook_builder.cc:272-290 | the scan's result over the current weights with the scaled draw is the k-means++ step |
| KMeans.PlusPlusPicksExtend | codebooks/codebook_builder.cc:272-311 | one roulette step extends a k-means++ seeding by one centre |
| KMeans.SeedPlusPlus | codebooks/codebook_builder.cc:245-312 | k-means++ writes exactly K centroids, each the row of a picked pool position: the first at the first draw, and each later one the roulette choice over the current weights |
| KMeans.AddCentre | codebooks/codebook_builder.cc:272-311 | one round picks the next position, writes its row as the next centroid, and leaves D2 and the total equal to the weights and their sum over the new set of centres |
| KMeans.ChooseCenter | codebooks/codebook_builder.cc:274-287 | with non-negative weights and a draw in [0, total], the scan always yields the roulette position, so the CHECK never fails |
| KMeans.RandomSeeds | codebooks/codebook_builder.cc:313-326 | random seeding yields K centres, each a copy of some row |
| KMeans.SeedRandom | codebooks/codebook_builder.cc:313-326 | the random-seeding loop writes centre c as the row of the c-th draw |
| KMeans.RandomSeedsMayRepeat | codebooks/codebook_builder.cc:314-322 | because the chosen set is never filled, two equal draws give two equal centres |
| KMeans.Members | codebooks/codebook_builder.cc:431-439 | the rows assigned to a cluster number exactly its count, and each is a data row |
| KMeans.Zero | codebooks/codebook_builder.cc:428-429 | the zeroed sum vector has every coordinate 0 |
| KMeans.Add | codebooks/codebook_builder.cc:434-437 | adding a row adds coordinate by coordinate |
| KMeans.VecSum | codebooks/codebook_builder.cc:431-439 | a cluster's coordinate sum has the data width |
| KMeans.Mean | codebooks/codebook_builder.cc:446-448 | a non-empty cluster's mean has the data width |
| KMeans.VecSumOfCopies | codebooks/codebook_builder.cc:431-439 | the sum of m copies of a row is m times that row |
| KMeans.MeanOfCopies | codebooks/codebook_builder.cc:446-448 | a cluster whose points all coincide has that point as its mean |
| KMeans.LloydCentroids | codebooks/codebook_builder.cc:441-453 | the Lloyd update keeps K centroids of the data width |
| KMeans.LloydIterations | codebooks/codebook_builder.cc:424-453 | the centroids after each iteration's update keep K entries of the data width |
| KMeans.Counts | codebooks/codebook_builder.cc:424-439 | there is one count per cluster |
| KMeans.SizesSumToN | codebooks/codebook_builder.cc:431-439 | every point is counted in exactly one cluster, so the sizes add up to n |
| KMeans.LloydStep | codebooks/codebook_builder.cc:424-453 | in place, each non-empty cluster's centroid becomes the mean of its rows and an empty cluster's is unchanged; the sizes are the per-cluster counts, and the empty-cluster counter is the data width times the number of empty clusters |
| KMeans.SumClusters | codebooks/codebook_builder.cc:424-439 | the first pass yields each cluster's count and coordinate sum |
| KMeans.AccumulateRow | codebooks/codebook_builder.cc:431-439 | adding row i keeps the counts and sums equal to those of the rows seen so far |
| KMeans.ApplyMeans | codebooks/codebook_builder.cc:441-453 | the second pass moves each centroid to its mean or leaves it, and counts one empty coordinate per coordinate of each empty cluster |
| KMeans.MoveToMean | codebooks/codebook_builder.cc:446-452 | the per-coordinate loop for one cluster divides its sum by its size, or counts all its coordinates as empty, and touches no other centroid |
| KMeans.EmptyCoordinatesCount | codebooks/codebook_builder.cc:446-451 | the counter counts the data width once per empty cluster, not once per cluster |
| KMeans.Distances | codebooks/codebook_builder.cc:484-488 | the reported distances, one per row |
| KMeans.SumDistances | codebooks/codebook_builder.cc:464-489 | the metric is the sum of the distances the final search reports |
| KMeans.MetricNonNegative | codebooks/codebook_builder.cc:484-488 | with non-negative distances from the index, the metric is non-negative |
| KMeans.InsertDescending | codebooks/codebook_builder.cc:496-497 | inserting into a largest-first list keeps it largest first and adds exactly that element |
| KMeans.SortDescending | codebooks/codebook_builder.cc:493-498 | the returned sizes are a permutation of the counts, largest first |
| KMeans.SumIntSort | codebooks/codebook_builder.cc:493-498 | sorting keeps the total |
| KMeans.SortedSizesSum | codebooks/codebook_builder.cc:493-498 | the sorted sizes number K and add up to n |
| Codebooks.Row | codebooks/codebook_builder.cc:109-123 | a stored row has the bin count plus 2 columns when the location weighting is positive |
| Codebooks.Kept | codebooks/codebook_builder.cc:103-126 | a batch keeps no more rows than it holds |
| Codebooks.KeptAllOrNone | codebooks/codebook_builder.cc:103-126 | when every draw is below the percentage every descriptor is kept, converted and in order; when none is, nothing is kept |
| Codebooks.CodebookBuilder.Rows | codebooks/codebook_builder.h:106-110 | the rows in use number exactly matrix_usage_ |
| Codebooks.CodebookBuilder.DataSize | codebooks/codebook_builder.cc:522-524 | DataSize is the number of rows added so far |
| Codebooks.CodebookBuilder.GetDictionary | codebooks/codebook_builder.cc:507-520 | the dictionary is empty before any clustering, and afterwards holds exactly the centroids, in order |
| Codebooks.CodebookBuilder.constructor | codebooks/codebook_builder.h:60-63 | a new builder has dimension 0, no data, no centroids, DataSize 0 and an empty dictionary |
| Codebooks.CodebookBuilder.AddData | codebooks/codebook_builder.cc:55-127 | an empty batch changes nothing; otherwise the dimension becomes the first descriptor's bin count plus 2 iff the weighting is positive, the first store has exactly the batch size, later stores are the doubled capacity, the rows become the old rows followed by the kept rows, and the centroids are untouched |
| Codebooks.CodebookBuilder.Grow | codebooks/codebook_builder.cc:80-99 | the doubling loop reaches the first doubled capacity that holds the required rows, and keeps every row in use |
| Codebooks.CodebookBuilder.AppendKept | codebooks/codebook_builder.cc:102-126 | the copy loop appends exactly the kept rows, in batch order, at the current usage |
| Codebooks.CodebookBuilder.Truncate | codebooks/codebook_builder.cc:137-148 | the store becomes exactly the rows in use, in order |
| Codebooks.CodebookBuilder.Cluster | codebooks/codebook_builder.cc:131-168 | K <= 0 fails the CHECK and changes nothing; otherwise the store is truncated, and on success the dictionary is the index's K centres, each of the data's dimension D |
| Codebooks.CodebookBuilder.ClusterApproximately | codebooks/codebook_builder.cc:170-505 | accuracy 1 hands over to Cluster; otherwise it fails iff K <= 0 or the strategy is unhandled, truncates the store, seeds K centroids by the chosen strategy and applies one Lloyd update per iteration; the metric is the sum of the final distances, the sizes are the last counts largest first adding up to n, each present exactly when requested and at least one iteration ran; on success the dictionary holds exactly K centroids of D bins each |
| SpatialPyramidKernel.ValueAtEntry | spatial_pyramid/spatial_pyramid_kernel.cc:146-147 | in an ascending sparse vector, the dense value at an entry's index is that entry's value |
| SpatialPyramidKernel.ValueAtAbsent | spatial_pyramid/spatial_pyramid_kernel.cc:146 | an index with no entry has dense value 0 |
| SpatialPyramidKernel.DotSpecTailAbsent | spatial_pyramid/spatial_pyramid_kernel.cc:143-145 | once every remaining entry of a lies past the end of b, nothing more is added, so the early break is safe |
| SpatialPyramidKernel.DotSpecSharedNone | spatial_pyramid/spatial_pyramid_kernel.cc:134-151 | vectors that share no index have dot product 0 |
| SpatialPyramidKernel.Dot | spatial_pyramid/spatial_pyramid_kernel.cc:134-151 | the two-cursor merge equals the sum over shared indices of the products, and never reads past either vector |
| SpatialPyramidKernel.IntersectionSpecEmptyB | spatial_pyramid/spatial_pyramid_kernel.cc:38-40 | the intersection with an empty histogram is 0 |
| SpatialPyramidKernel.HistogramIntersection | spatial_pyramid/spatial_pyramid_kernel.cc:36-55 | the merge equals the sum over shared indices of the smaller value, its cursor staying in [0, \|b\| - 1], and 0 when either input is empty |
| SpatialPyramidKernel.LevelWeight | spatial_pyramid/spatial_pyramid_kernel.cc:85-98 | every level weight 1/2^(L-1) for level 0 and 1/2^(L-l) for level l >= 1 is positive |
| SpatialPyramidKernel.LevelWeights | spatial_pyramid/spatial_pyramid_kernel.cc:85-98 | levels 0 and 1 weigh the same, each finer level weighs twice the previous one, the finest weighs 1/2, and a single level weighs 1 |
| SpatialPyramidKernel.SpmOneAndTwoLevels | spatial_pyramid/spatial_pyramid_kernel.cc:79-101 | with one level the match kernel is the plain intersection of the coarsest histograms, and with two it is the mean of the two levels' intersections |
| SpatialPyramidKernel.AddLevelDots | spatial_pyramid/spatial_pyramid_kernel.cc:63-74 | one level's loop adds exactly the dot products of its histograms |
| SpatialPyramidKernel.LinearKernel | spatial_pyramid/spatial_pyramid_kernel.cc:57-77 | unequal level counts fail the CHECK, and only then; otherwise the result is the sum over all levels and histograms of the dot products |
| SpatialPyramidKernel.AddLevelIntersections | spatial_pyramid/spatial_pyramid_kernel.cc:87-98 | one level's loop adds exactly the weighted intersections of its histograms |
| SpatialPyramidKernel.SpmKernel | spatial_pyramid/spatial_pyramid_kernel.cc:79-101 | unequal level counts, or fewer levels than requested, fail a CHECK, and only these; otherwise the result is the level-weighted sum of the histogram intersections over the first num_levels levels. Only those levels need be comparable |
| SpatialPyramidKernel.Shift | spatial_pyramid/spatial_pyramid_kernel.cc:121-125 | each entry keeps its value and has its index moved by the base |
| SpatialPyramidKernel.UnrollStep | spatial_pyramid/spatial_pyramid_kernel.cc:120-126 | one more histogram appends its entries shifted by the dense lengths before it, and adds its own dense length to the base |
| SpatialPyramidKernel.AppendShifted | spatial_pyramid/spatial_pyramid_kernel.cc:121-125 | the entry loop appends exactly the shifted entries |
| SpatialPyramidKernel.UnrollLevel | spatial_pyramid/spatial_pyramid_kernel.cc:115-127 | a level's loop succeeds iff every histogram has a recorded dense length, and then extends the unrolled vector and the base by that level's histograms |
| SpatialPyramidKernel.UnrollHistograms | spatial_pyramid/spatial_pyramid_kernel.cc:103-132 | it succeeds iff there is a level, every level has rows * columns histograms and every dense length is recorded; the result is every histogram's entries in level then row-major order, each shifted by the dense lengths of all earlier histograms, and the dimension is the sum of all dense lengths |
| SpatialPyramidKernel.UnrollAscending | spatial_pyramid/spatial_pyramid_kernel.cc:103-132 | unrolling well-indexed histograms gives strictly ascending indices, all below the total dimension, so the histograms occupy disjoint ranges |
| SpatialPyramidKernel.ValueAtShift | spatial_pyramid/spatial_pyramid_kernel.cc:123 | shifting a vector moves its dense values by the base |
| SpatialPyramidKernel.DotSpecShift | spatial_pyramid/spatial_pyramid_kernel.cc:123 | shifting both vectors by the same base keeps their dot product |
| SpatialPyramidKernel.DotSpecBlocks | spatial_pyramid/spatial_pyramid_kernel.cc:134-151 | for vectors split at the same index boundary, the dot product is the sum of the dot products of the parts |
| SpatialPyramidKernel.UnrolledDotPrefix | spatial_pyramid/spatial_pyramid_kernel.cc:103-151 | for histograms laid out alike, the dot product of the unrolled vectors is the sum of the per-histogram dot products |
| SpatialPyramidKernel.LinearKernelIsUnrolledDot | spatial_pyramid/spatial_pyramid_kernel.cc:57-151 | the linear kernel of two pyramids built alike equals the dot product of their unrolled vectors |
| PyramidBuilder.GridCells | spatial_pyramid/spatial_pyramid_builder.h:107-111 | a 2^i x 2^i grid holds 4^i cells |
| PyramidBuilder.EmptyLevel | spatial_pyramid/spatial_pyramid_builder.cc:152-161 | an empty level is a g x g grid of g * g histograms |
| PyramidBuilder.Geometry | spatial_pyramid/spatial_pyramid_builder.cc:149-163 | the laid-out pyramid has num_levels levels, none when num_levels <= 0 |
| PyramidBuilder.GeometryShape | spatial_pyramid/spatial_pyramid_builder.cc:149-163 | level i has 2^i rows, 2^i columns and 4^i histograms, each without entries and of the summed dictionary size |
| PyramidBuilder.LayOut | spatial_pyramid/spatial_pyramid_builder.cc:149-163 | the layout loop builds exactly that geometry |
| PyramidBuilder.CellWidth | spatial_pyramid/spatial_pyramid_builder.cc:223-240 | the cell width of level i is positive and times 2^i gives 1 |
| PyramidBuilder.CellWidthHalves | spatial_pyramid/spatial_pyramid_builder.cc:305 | the width of the next level is half the width of this one |
| PyramidBuilder.ScaledBounds | spatial_pyramid/spatial_pyramid_builder.cc:239-240 | a coordinate between the bounds of cell c lies in [c, c + 1) once scaled by the grid size |
| PyramidBuilder.Unscale | spatial_pyramid/spatial_pyramid_builder.cc:239-240 | scaled cell bounds divide back to cell bounds |
| PyramidBuilder.UnscaledBounds | spatial_pyramid/spatial_pyramid_builder.cc:239-240 | a coordinate in [c, c + 1) once scaled lies between the bounds of cell c |
| PyramidBuilder.CoordinateInGrid | spatial_pyramid/spatial_pyramid_builder.cc:228-240 | a coordinate in [0, 1) has a cell number in [0, 2^i) |
| PyramidBuilder.CoordinateCell | spatial_pyramid/spatial_pyramid_builder.cc:239-240 | a coordinate in [0, 1) lies between the bounds of its cell |
| PyramidBuilder.CellMembership | spatial_pyramid/spatial_pyramid_builder.cc:228-240 | a descriptor with x and y in [0, 1) passes the half-open test of a cell on every level |
| PyramidBuilder.CellUnique | spatial_pyramid/spatial_pyramid_builder.cc:239-240 | it passes the test of no other cell, so it lies in exactly one cell per level |
| PyramidBuilder.NoCellAtOne | spatial_pyramid/spatial_pyramid_builder.cc:239-240 | a coordinate equal to 1.0 passes the test of no cell of the grid |
| PyramidBuilder.Put | spatial_pyramid/spatial_pyramid_builder.cc:264-275 | the std::map after m[idx] = v is non-empty and starts at its smallest key |
| PyramidBuilder.PutAscending | spatial_pyramid/spatial_pyramid_builder.cc:264-275 | m[idx] = v keeps the keys strictly ascending |
| PyramidBuilder.PutEntries | spatial_pyramid/spatial_pyramid_builder.cc:264-275 | after m[idx] = v the map holds (idx, v), keeps every entry with another key, and holds nothing else |
| PyramidBuilder.PutValueAt | spatial_pyramid/spatial_pyramid_builder.cc:264-275 | after m[idx] = v the map reads v at idx and what it read before everywhere else |
| PyramidBuilder.PutTotal | spatial_pyramid/spatial_pyramid_builder.cc:269 | overwriting one value changes the map's sum by the difference |
| PyramidBuilder.ValueAtUnit | spatial_pyramid/spatial_pyramid_builder.cc:272-274 | a map whose values are in (0, 1] reads a value in [0, 1] anywhere, a missing bin reading 0 |
| PyramidBuilder.RawWeights | spatial_pyramid/spatial_pyramid_builder.cc:245-253 | there is one Gaussian weight per neighbour |
| PyramidBuilder.RawWeightsPositive | spatial_pyramid/spatial_pyramid_builder.cc:246-248 | with a positive exponential every unnormalised weight is positive |
| PyramidBuilder.SoftWeights | spatial_pyramid/spatial_pyramid_builder.cc:243-263 | there is one normalised weight per neighbour |
| PyramidBuilder.Divided | spatial_pyramid/spatial_pyramid_builder.cc:259-263 | dividing keeps the count |
| PyramidBuilder.SumDivided | spatial_pyramid/spatial_pyramid_builder.cc:259-263 | the sum of the divided weights is the sum divided by the normaliser |
| PyramidBuilder.SumOfPositives | spatial_pyramid/spatial_pyramid_builder.cc:252 | a sum of positive weights is at least each of them, and positive when there is one |
| PyramidBuilder.SoftWeightsNormalised | spatial_pyramid/spatial_pyramid_builder.cc:241-263 | with a positive exponential and at least one neighbour, the soft weights each lie in (0, 1] and sum to 1 |
| PyramidBuilder.HardAssignment | spatial_pyramid/spatial_pyramid_builder.h:120-121 | with k == 1 the nearest codeword gets weight 1, which is hard assignment |
| PyramidBuilder.AddCodeLast | spatial_pyramid/spatial_pyramid_builder.cc:265-276 | pooling one more neighbour adds its weight to its bin (average) or keeps the larger of the two (max) |
| PyramidBuilder.Normalised | spatial_pyramid/spatial_pyramid_builder.cc:289-292 | dividing the map by its sum keeps its keys and their count |
| PyramidBuilder.Finish | spatial_pyramid/spatial_pyramid_builder.cc:279-293 | the emitted map keeps the keys of the accumulated map |
| PyramidBuilder.AddCodeAscending | spatial_pyramid/spatial_pyramid_builder.cc:265-276 | pooling a descriptor's weights keeps the map's keys ascending |
| PyramidBuilder.CellHistogramAscending | spatial_pyramid/spatial_pyramid_builder.cc:233-301 | a cell's map is emitted in ascending index order |
| PyramidBuilder.AddCodeKeys | spatial_pyramid/spatial_pyramid_builder.cc:265-276 | pooling only adds keys that name codewords of the dictionary |
| PyramidBuilder.CellHistogramKeys | spatial_pyramid/spatial_pyramid_builder.cc:233-278 | a cell's map only holds codewords of the dictionary |
| PyramidBuilder.AddCodeAverageStep | spatial_pyramid/spatial_pyramid_builder.cc:266-269 | one average-pooling step adds that neighbour's weight to the map's sum |
| PyramidBuilder.AddCodeTotal | spatial_pyramid/spatial_pyramid_builder.cc:265-276 | average pooling adds a descriptor's weights to the map's sum |
| PyramidBuilder.AverageCellTotal | spatial_pyramid/spatial_pyramid_builder.cc:233-278 | with a positive exponential and at least one neighbour each, an average-pooled cell's sum is the number of descriptors in it, and the map is empty exactly when none is |
| PyramidBuilder.TotalNormalised | spatial_pyramid/spatial_pyramid_builder.cc:283-292 | the normalised map sums to the old sum divided by the normaliser |
| PyramidBuilder.AverageCellSumsToOne | spatial_pyramid/spatial_pyramid_builder.cc:279-301 | average pooling: a cell with a descriptor emits entries summing to 1, and a cell without one emits nothing |
| PyramidBuilder.AddCodeMax | spatial_pyramid/spatial_pyramid_builder.cc:270-275 | max pooling keeps every bin in (0, 1] when the weights are |
| PyramidBuilder.MaxCellUnit | spatial_pyramid/spatial_pyramid_builder.cc:270-275 | max pooling: every bin a cell emits holds a value in (0, 1], the largest weight it was given |
| PyramidBuilder.NoNeighboursNoEntries | spatial_pyramid/spatial_pyramid_builder.cc:245-276 | with k == 0 no cell receives an entry |
| PyramidBuilder.AverageSumNonZero | spatial_pyramid/spatial_pyramid_builder.cc:283-292 | an average-pooled map with entries sums to at least 1, so the division is defined |
| PyramidBuilder.GeometryCoded | spatial_pyramid/spatial_pyramid_builder.cc:149-168 | before any dictionary is coded, and for an empty descriptor set, the result is exactly the bare geometry with no entries |
| PyramidBuilder.EmptyCellEntries | spatial_pyramid/spatial_pyramid_builder.cc:165-168 | a cell has no entries before any dictionary, or without descriptors |
| PyramidBuilder.CellCodeWellIndexed | spatial_pyramid/spatial_pyramid_builder.cc:295-301 | a cell's code is ascending and names codewords of its dictionary |
| PyramidBuilder.OffsetMonotone | spatial_pyramid/spatial_pyramid_builder.cc:308 | the index offset never decreases from dictionary to dictionary |
| PyramidBuilder.CellEntriesWellIndexed | spatial_pyramid/spatial_pyramid_builder.cc:174-308 | a cell's entries are ascending, and dictionary j's lie in [offset j, offset j+1), so the dictionaries' histograms are concatenated side by side within the cell |
| PyramidBuilder.CodedWellFormed | spatial_pyramid/spatial_pyramid_builder.cc:132-314 | a built pyramid has level l a 2^l x 2^l grid of 4^l histograms, each recording the summed dictionary size, with entries ascending and inside that length, so it can be unrolled |
| PyramidBuilder.SoftAssign | spatial_pyramid/spatial_pyramid_builder.cc:243-263 | the weight loops yield the soft weights |
| PyramidBuilder.Accumulate | spatial_pyramid/spatial_pyramid_builder.cc:265-276 | the pooling loop pools the weights into the map neighbour by neighbour |
| PyramidBuilder.NormaliseSum | spatial_pyramid/spatial_pyramid_builder.cc:281-293 | the two map loops divide every value by the map's sum |
| PyramidBuilder.CodeCell | spatial_pyramid/spatial_pyramid_builder.cc:233-293 | a cell's entries are every descriptor inside it pooled with its soft weights, normalised for average pooling |
| PyramidBuilder.RowMajor | spatial_pyramid/spatial_pyramid_builder.cc:231 | cell (row, col) sits at histogram row * g + col, and that position gives the row and column back |
| PyramidBuilder.RowMajorBound | spatial_pyramid/spatial_pyramid_builder.cc:231 | that position lies inside the level's g * g histograms |
| PyramidBuilder.CodeLevel | spatial_pyramid/spatial_pyramid_builder.cc:228-303 | one level appends to each histogram the entries of its cell moved by the dictionary's offset, and keeps every histogram's length |
| PyramidBuilder.CodeRow | spatial_pyramid/spatial_pyramid_builder.cc:229-302 | the column loop of one grid row: with the cells before the row coded and the rest untouched, afterwards every cell up to the end of the row holds its code moved up by the offset and the later cells are untouched |
| PyramidBuilder.CodeDictionary | spatial_pyramid/spatial_pyramid_builder.cc:223-308 | coding one more dictionary over every level extends the pyramid from n coded dictionaries to n + 1 |
| PyramidBuilder.BuildQuery | spatial_pyramid/spatial_pyramid_builder.cc:183-211 | the query has one row per descriptor, its bins followed by x and y times 127 times the weighting when that is positive, and all rows have the query's width |
| PyramidBuilder.CappedK | spatial_pyramid/spatial_pyramid_builder.cc:178-179 | the capped k is min(k, dictionary size) |
| PyramidBuilder.ShiftZero | spatial_pyramid/spatial_pyramid_builder.cc:446 | a single level's keys are the dictionary's own, unshifted |
| PyramidBuilder.FirstEmpty | spatial_pyramid/spatial_pyramid_builder.cc:79-83 | the first dictionary without centroids, or the count when every one has some |
| PyramidBuilder.SpatialPyramidBuilder.Sizes | spatial_pyramid/spatial_pyramid_builder.cc:143-147 | one codeword count per dictionary |
| PyramidBuilder.SpatialPyramidBuilder.constructor | spatial_pyramid/spatial_pyramid_builder.h:72-76 | a new builder has no dictionaries and beta 10 |
| PyramidBuilder.SpatialPyramidBuilder.Init | spatial_pyramid/spatial_pyramid_builder.cc:45-95 | the thread count is kept; an empty list returns false and keeps the old data; otherwise one slot per dictionary is made and filled in order, and it returns true iff no dictionary lacks centroids; the slots from the first empty one on stay unset |
| PyramidBuilder.SpatialPyramidBuilder.InitADictionary | spatial_pyramid/spatial_pyramid_builder.cc:99-130 | one slot gets its dictionary's location weighting and centroids, nothing else changes |
| PyramidBuilder.SpatialPyramidBuilder.CodingOf | spatial_pyramid/spatial_pyramid_builder.cc:248 | the coding uses the builder's beta, the given exponential and the pooling strategy |
| PyramidBuilder.SpatialPyramidBuilder.BuildPyramid | spatial_pyramid/spatial_pyramid_builder.cc:132-314 | fatal iff there are no dictionaries, or there are descriptors and k is negative (the neighbour matrices cannot be allocated); otherwise the pyramid has num_levels levels, level l a 2^l x 2^l grid recording the summed dictionary size, and every cell holds, dictionary after dictionary, that dictionary's cell code offset by the sizes of the dictionaries before it |
| PyramidBuilder.SpatialPyramidBuilder.BuildSingleLevel | spatial_pyramid/spatial_pyramid_builder.cc:316-455 | fatal iff there is not exactly one dictionary, or there are descriptors and k is negative (the neighbour matrices cannot be allocated); otherwise one level, a 2^level x 2^level grid whose cells hold their cell codes with unshifted keys and no recorded dense length, including for an empty descriptor set |
| PyramidBuilder.SingleLevelHolds | spatial_pyramid/spatial_pyramid_builder.cc:371-450 | a level whose histograms hold the unshifted cell codes is what a single dictionary gives |
| PyramidBuilder.EmptySingleLevel | spatial_pyramid/spatial_pyramid_builder.cc:332-343 | without descriptors the single level is the bare grid, with no recorded length |
| CategoryChoice.QueryRows | naive_bayes_nearest_neighbor/nbnn_classifier-inl.h:108-120 | the subsampled query keeps at most one converted row per descriptor |
| CategoryChoice.QueryRowsAllOrNone | naive_bayes_nearest_neighbor/merged_classifier.h:164-173 | a draw below the percentage for every descriptor queries every converted descriptor in order; no draw below it gives an empty query |
| CategoryChoice.BuildQuery | naive_bayes_nearest_neighbor/nbnn_classifier-inl.h:106-129 | the temp-array loop produces exactly the subsample: the rows of the descriptors whose draw is below the percentage, converted, in input order |
| CategoryChoice.SortedKeys | naive_bayes_nearest_neighbor/nbnn_classifier-inl.h:96-99 | the accumulator map's keys are strictly ascending and are exactly the class names, each once |
| CategoryChoice.DistinctAtMostOnce | naive_bayes_nearest_neighbor/nbnn_classifier-inl.h:145-146 | a name occurs at most once in a list of distinct names |
| CategoryChoice.PermutationDistinct | naive_bayes_nearest_neighbor/nbnn_classifier-inl.h:145-146 | a shuffle of a list of distinct names is still distinct |
| CategoryChoice.ScanMin | naive_bayes_nearest_neighbor/nbnn_classifier-inl.h:170-179 | the scan's running minimum is at most the sentinel 99999999999 and at most every total; it is the first position holding that minimum, or no position when no total is below the sentinel |
| CategoryChoice.WinnerIsArgmin | naive_bayes_nearest_neighbor/merged_classifier.h:233-246 | the chosen class is "" when no total is below the sentinel; otherwise it is a class with the smallest total, and on a tie it is the one first in name order |
| CategoryChoice.ChooseCategory | naive_bayes_nearest_neighbor/nbnn_classifier-inl.h:170-182 | the loop over the totals in key order returns the winner defined by the scan |
| Nbnn.FirstDistances | naive_bayes_nearest_neighbor/nbnn_classifier-inl.h:157-165 | one rescaled nearest distance per query row |
| Nbnn.ClassTotalNonNegative | naive_bayes_nearest_neighbor/nbnn_classifier-inl.h:157-165 | a class total, a sum of squared distances divided by 16129, is never negative |
| Nbnn.ZeroTotals | naive_bayes_nearest_neighbor/nbnn_classifier-inl.h:96-99 | the accumulator holds every listed class at 0 and nothing else, with its keys in name order |
| Nbnn.AddDistances | naive_bayes_nearest_neighbor/nbnn_classifier-inl.h:157-165 | searching one class adds its summed rescaled nearest distances to that class's total and changes no other total |
| Nbnn.SearchInOrder | naive_bayes_nearest_neighbor/nbnn_classifier-inl.h:147-166 | after the searches in the given order, each searched class's total is its class total and every other total is unchanged |
| Nbnn.SearchAll | naive_bayes_nearest_neighbor/nbnn_classifier-inl.h:141-166 | whatever the shuffled order, searching every class from all-zero totals gives the same totals map |
| Nbnn.AnsweredNonEmpty | naive_bayes_nearest_neighbor/nbnn_classifier.h:43-47 | an index that answers with nearestNeighbors >= 1 neighbours per row gives every class a nearest distance for each query row |
| Nbnn.NbnnClassifier.GetNumClasses | naive_bayes_nearest_neighbor/nbnn_classifier-inl.h:55-58 | the class count is the length of the class list |
| Nbnn.NbnnClassifier.constructor | naive_bayes_nearest_neighbor/nbnn_classifier.h:50 | a new classifier has no classes and no indices, one neighbour, alpha 0 and one check |
| Nbnn.NbnnClassifier.SetClassificationParams | naive_bayes_nearest_neighbor/nbnn_classifier-inl.h:66-74 | the three parameters are stored and the classes and indices are unchanged |
| Nbnn.NbnnClassifier.AddClass | naive_bayes_nearest_neighbor/nbnn_classifier-inl.h:76-83 | the name is always appended to the class list; the add fails exactly when the name already has an index, and otherwise the index is stored under the name |
| Nbnn.NbnnClassifier.Classify | naive_bayes_nearest_neighbor/nbnn_classifier-inl.h:91-183 | the result is the class with the smallest total of rescaled nearest distances over the subsampled query, ties broken by name order, whatever the shuffled search order |
| Nbnn.NbnnClassifier.ClassifyAll | naive_bayes_nearest_neighbor/nbnn_classifier-inl.h:85-89 | classifying without a percentage is classifying with percentage 1.0 |
| Merged.WeightedRows | naive_bayes_nearest_neighbor/merged_classifier.h:101-111 | one converted row per added descriptor |
| Merged.FirstSeen | naive_bayes_nearest_neighbor/merged_classifier.h:202-220 | a class is seen among the first k neighbours exactly when one of them has its label, and then its distance is that of its first occurrence |
| Merged.MergedTotalSign | naive_bayes_nearest_neighbor/merged_classifier.h:198-228 | with the neighbours in ascending distance, every class total is at most 0, and a class never among the first k neighbours totals exactly 0 |
| Merged.RowDistances | naive_bayes_nearest_neighbor/merged_classifier.h:199-220 | each class among the first k neighbours gets one entry, its first-occurrence distance minus the b-th neighbour's, both divided by 16129; no other class gets an entry |
| Merged.AddRow | naive_bayes_nearest_neighbor/merged_classifier.h:222-227 | adding one row's map changes exactly the totals of the classes it holds, by their entries |
| Merged.AccumulateRows | naive_bayes_nearest_neighbor/merged_classifier.h:151-156 | starting from 0 for every class, the totals over all query rows are each class's summed contributions |
| Merged.MergedClassifier.Rows | naive_bayes_nearest_neighbor/merged_classifier.h:253-255 | the stored rows are the first data_size_ rows of the store |
| Merged.MergedClassifier.DataSize | naive_bayes_nearest_neighbor/merged_classifier.h:114-116 | the data size is the number of stored rows and of row labels |
| Merged.MergedClassifier.constructor | naive_bayes_nearest_neighbor/merged_classifier.h:24-29 | a new classifier holds no data, has no classes, no parameters set and no index, one neighbour, background index 2, alpha 0, one check and dimension 0 |
| Merged.MergedClassifier.SetClassifierParams | naive_bayes_nearest_neighbor/merged_classifier.h:41-52 | the five parameters are stored, the parameters count as set, and the data, labels, classes and index state are unchanged |
| Merged.MergedClassifier.AddData | naive_bayes_nearest_neighbor/merged_classifier.h:54-112 | adding before the parameters are set is fatal; otherwise the class is registered; an empty set changes nothing else; the first non-empty set fixes the dimension (+2 when alpha > 0); the add succeeds exactly when every row has that width, and then the rows and labels are appended and the store is sized to the set or doubled until it fits |
| Merged.MergedClassifier.Grow | naive_bayes_nearest_neighbor/merged_classifier.h:78-98 | the store doubles until it holds the required rows, and every stored row is kept |
| Merged.Doubled | naive_bayes_nearest_neighbor/merged_classifier.h:83-91 | one doubling: a fresh store of twice the rows whose front holds every old row |
| Merged.MergedClassifier.StoreRows | naive_bayes_nearest_neighbor/merged_classifier.h:67-111 | for a non-empty set: the first store is exactly the set's size, a later one is the doubled capacity that holds the old and new rows; it succeeds exactly when every row converts to the fixed width, and then the rows and labels are appended |
| Merged.MergedClassifier.AppendRows | naive_bayes_nearest_neighbor/merged_classifier.h:101-111 | each descriptor is converted into the next free row and labelled with the class; it succeeds exactly when every row has the fixed width |
| Merged.MergedClassifier.BuildIndex | naive_bayes_nearest_neighbor/merged_classifier.h:118-138 | the store is replaced by one of exactly the rows in use, with the same rows, labels and classes, and the index is built |
| Merged.MergedClassifier.BackgroundCount | naive_bayes_nearest_neighbor/merged_classifier.h:143-146 | b lies between 0 and the data size and is either the background index or the data size; it is the background index exactly when that index is non-negative and below the data size |
| Merged.MergedClassifier.ForegroundCount | naive_bayes_nearest_neighbor/merged_classifier.h:147-149 | k is the smaller of b - 1 and the neighbour count |
| Merged.MergedClassifier.Classify | naive_bayes_nearest_neighbor/merged_classifier.h:140-247 | classifying before the index is built is fatal; otherwise the index answers one neighbour list per row of the subsampled query the method builds, b is the background index capped at the data size, k is the neighbour count capped at b - 1, and the result is the class with the smallest merged total, ties broken by name order |
| TrainerCli.ImprovedWithinRise | spatial_pyramid/trainer_cli.cc:336-351 | with accuracies below 1.5, the backwards scan sees an improvement within its first steps exactly when some smaller c did worse than the next larger c; the first comparison, against the start value 2.0, never counts |
| TrainerCli.LastKeyIsLargest | spatial_pyramid/trainer_cli.cc:331 | over a map's ascending keys, the entry read through rbegin() has the largest c |
| TrainerCli.StopMeansPlateau | spatial_pyramid/trainer_cli.cc:327-353 | for accuracies in [0, 1]: the search stops exactly when the largest c is above 32 and the accuracy never rose from one c to the next over the last five values of c |
| TrainerCli.StopCondition | spatial_pyramid/trainer_cli.cc:327-353 | the reverse scan over at most five entries computes the stop rule |
| TrainerCli.ScanMax | spatial_pyramid/trainer_cli.cc:357-366 | the kept value starts at -1 and is at least every accuracy; a kept value above -1 belongs to an entry whose key is the kept key and which no earlier entry reaches; otherwise the key stays -1 |
| TrainerCli.KeyWithMaxValueIsArgmax | spatial_pyramid/trainer_cli.cc:355-367 | over non-negative accuracies, the returned key has the greatest accuracy and is the first such key in key order |
| TrainerCli.SmallestBestKey | spatial_pyramid/trainer_cli.cc:355-367 | over a map's ascending keys, the chosen c is a key of the map and the smallest c that reaches the greatest accuracy |
| TrainerCli.KeyWithMaxValue | spatial_pyramid/trainer_cli.cc:355-367 | an empty map is fatal; otherwise the result is the scan's kept key |
| TrainerCli.TruncRem | spatial_pyramid/trainer_cli.cc:132 | C++'s % agrees with the Euclidean remainder on non-negative dividends |
| TrainerCli.TruncRemZero | spatial_pyramid/trainer_cli.cc:132 | (i - fold) % num_folds is 0 exactly when the Euclidean remainder is, even for negative i - fold |
| TrainerCli.Selected | spatial_pyramid/trainer_cli.cc:130-140 | a side of the fold holds at most n positions |
| TrainerCli.SelectedIncreasing | spatial_pyramid/trainer_cli.cc:130-140 | the positions on each side of the fold are increasing and below n |
| TrainerCli.SelectedMembers | spatial_pyramid/trainer_cli.cc:130-140 | a position is on the test side exactly when it is below n and (i - fold) % num_folds is 0, and on the training side exactly when it is below n and that remainder is not 0 |
| TrainerCli.SelectedCount | spatial_pyramid/trainer_cli.cc:130-140 | the test and training positions of a fold together number n |
| TrainerCli.TestedOnce | spatial_pyramid/trainer_cli.cc:122-140 | over folds 0..num_folds-1, each example is tested in exactly one fold, the one equal to its position modulo num_folds |
| TrainerCli.Gather | spatial_pyramid/trainer_cli.cc:133-137 | the true categories are the categories at the chosen positions, in order |
| TrainerCli.SplitFold | spatial_pyramid/trainer_cli.cc:124-140 | the loop yields the test and training positions of the fold, in map order, with their true categories |
| TrainerCli.UpperRow | spatial_pyramid/trainer_cli.cc:287-323 | a row built by a shard has n + 2 nodes |
| TrainerCli.BuildGramMatrixShard | spatial_pyramid/trainer_cli.cc:267-325 | the rows of the shard's range are filled with their upper-triangle kernel row, and every other row is unchanged |
| TrainerCli.BuildGramMatrix | spatial_pyramid/trainer_cli.cc:428-440 | when the shard bounds fall from n and the last shard starts at 0, every row is filled with its upper-triangle kernel row |
| TrainerCli.FillLowerTriangle | spatial_pyramid/trainer_cli.cc:441-447 | for 1 <= col <= row, node col of row `row` becomes node row + 1 of row col - 1; every other node is unchanged |
| TrainerCli.MirroredIsGram | spatial_pyramid/trainer_cli.cc:441-447 | mirroring the shards' upper triangle gives a symmetric matrix holding the kernel of every pair, with the smaller position first |
| TrainerCli.BuildKernelMatrix | spatial_pyramid/trainer_cli.cc:420-447 | the shards followed by the mirror loop leave the full gram matrix of the kernel, with each row r starting with the id node (0, r + 1) and ending with the (-1, 0) terminator that libsvm's precomputed-kernel format reads |
| TrainerCli.SubsetRow | spatial_pyramid/trainer_cli.cc:147-167 | a sub-matrix row has one node per training example plus the id and the terminator |
| TrainerCli.ExtractSubset | spatial_pyramid/trainer_cli.cc:142-167 | the sub-matrix has one row per training example; each row carries its id, the full matrix's values at the training columns, and the terminator |
| TrainerCli.SubsetIsGram | spatial_pyramid/trainer_cli.cc:142-167 | cut from a gram matrix, the sub-matrix holds the kernel of each pair of training examples and is symmetric |
| TrainerCli.TestVector | spatial_pyramid/trainer_cli.cc:194-214 | a test vector has node 0 and terminator -1 with value 0, and node j + 1 holds the full matrix's kernel between the test example and the j-th training example |
| TrainerCli.Labels | spatial_pyramid/trainer_cli.cc:171-180 | one label per example |
| TrainerCli.LabelsOneVsRest | spatial_pyramid/trainer_cli.cc:171-180 | every label is +1 or -1, +1 exactly on the category's examples, and the labels sum to the positives minus the negatives |
| TrainerCli.PositiveOnce | spatial_pyramid/trainer_cli.cc:571-584 | over a category set holding every example's category, each example is a positive of exactly one per-category problem |
| TrainerCli.SetLabels | spatial_pyramid/trainer_cli.cc:574-583 | the target vector set in place holds the one-versus-rest labels |
| CaltechUtil.LastIndex | naive_bayes_nearest_neighbor/caltech_util.py:151-153 | the position found is the last occurrence of the character, or -1 when there is none |
| CaltechUtil.Basename | naive_bayes_nearest_neighbor/caltech_util.py:151-153 | the base name is a slash-free suffix of the path |
| CaltechUtil.RStripSlash | naive_bayes_nearest_neighbor/caltech_util.py:69-71 | stripping trailing slashes keeps a prefix, which does not end in '/', and removes only slashes |
| CaltechUtil.LStripSlash | naive_bayes_nearest_neighbor/caltech_util.py:69-71 | stripping leading slashes keeps a suffix, which does not start with '/', and removes only slashes |
| CaltechUtil.ReplaceAbsent | naive_bayes_nearest_neighbor/caltech_util.py:69-71 | replacing a non-empty string that does not occur leaves the text unchanged |
| CaltechUtil.LastIndexSkips | naive_bayes_nearest_neighbor/caltech_util.py:151-153 | the last occurrence of a character in a + b, when b has none, is the one in a |
| CaltechUtil.BasenameOfJoin | naive_bayes_nearest_neighbor/caltech_util.py:151-153 | a name without '/' joined onto a directory is its own base name |
| CaltechUtil.SplitextRootOf | naive_bayes_nearest_neighbor/caltech_util.py:151-153 | the root of stem.ext, for a dot-free extension and a stem not made only of dots, is the stem |
| CaltechUtil.Items | naive_bayes_nearest_neighbor/caltech_util.py:67-73 | one item per glob match |
| CaltechUtil.ItemsPointwise | naive_bayes_nearest_neighbor/caltech_util.py:67-73 | the items are built one per match, in match order |
| CaltechUtil.BuildExtractionList | naive_bayes_nearest_neighbor/caltech_util.py:53-74 | the list holds one item per .jpg match, then one per .png match, in glob order |
| CaltechUtil.ClassNameOfMatch | naive_bayes_nearest_neighbor/caltech_util.py:69-72 | for a match directory/class/name, the class name is the class directory, so descriptors go to target/class |
| CaltechUtil.LStripOneSlash | naive_bayes_nearest_neighbor/caltech_util.py:69-71 | one leading slash before a name that does not start with '/' is stripped |
| CaltechUtil.DirnameOfMatch | naive_bayes_nearest_neighbor/caltech_util.py:69-71 | the directory of dir/name is dir, for a dir not ending in '/' |
| CaltechUtil.ReplaceLeading | naive_bayes_nearest_neighbor/caltech_util.py:69-71 | removing a directory from the front of a path whose rest does not contain it leaves the rest |
| CaltechUtil.AbsoluteDirectoryKeepsMatch | naive_bayes_nearest_neighbor/caltech_util.py:68 | with an absolute image directory, the item's image is the glob match itself |
| CaltechUtil.RelativeDirectoryDoubled | naive_bayes_nearest_neighbor/caltech_util.py:68 | with a relative image directory, the item's image has the directory in front a second time and is not the match |
| CaltechUtil.RelativeDirectoryExample | naive_bayes_nearest_neighbor/caltech_util.py:68 | the directory "caltech" and the match "caltech/faces/image_0001.jpg" give the image "caltech/caltech/faces/image_0001.jpg" |
| CaltechUtil.IntendedItemOfMatch | naive_bayes_nearest_neighbor/caltech_util.py:59-61 | the intended item is the matched image with target/class as its directory, and it agrees with the code for absolute image directories |
| CaltechUtil.SliceBound | naive_bayes_nearest_neighbor/caltech_util.py:127 | a slice bound is clipped to the list and is the index itself when that lies in range |
| CaltechUtil.SplitIntoTrainTestRandom | naive_bayes_nearest_neighbor/caltech_util.py:110-127 | asking for more files than the list holds, or a negative total, is an error; otherwise the two lists together hold num_train + num_test files, all from the list |
| CaltechUtil.SplitSizesAndDisjoint | naive_bayes_nearest_neighbor/caltech_util.py:119-127 | with non-negative counts the lists have exactly the requested sizes and, over a list without repetitions, share no file |
| CaltechUtil.DiffersCoversEveryField | naive_bayes_nearest_neighbor/caltech_util.py:163-197 | every field but resolution_factor is compared: parameters that do not differ are equal apart from float drift and the resolution factor, and equal parameters never differ |
| CaltechUtil.ResolutionFactorIgnored | naive_bayes_nearest_neighbor/caltech_util.py:163-197 | parameters that differ from the request only in resolution_factor do not count as different |
| CaltechUtil.SmallDriftTolerated | naive_bayes_nearest_neighbor/caltech_util.py:163-197 | float fields that drift by at most 0.00001 do not count as a difference |
| CaltechUtil.ReadExisting | naive_bayes_nearest_neighbor/caltech_util.py:155-159 | a missing file is an IOError, and recorded parameters are the parse of the file's first frame |
| CaltechUtil.NeedFreshExtraction | naive_bayes_nearest_neighbor/caltech_util.py:155-199 | an IOError means a fresh extraction, identical parameters mean none, and only a malformed file raises |
| CaltechUtil.Differs | naive_bayes_nearest_neighbor/caltech_util.py:163-196 | parameters that agree except in resolution_factor never differ; parameters that do not differ agree on every field other than the four floats and resolution_factor, and on those floats up to 0.00001 |
| CaltechUtil.GridTypeName | naive_bayes_nearest_neighbor/caltech_util.py:200-215 | the name given for a grid method is one the extractor reads back to that same method, so distinct methods get distinct names |
| CaltechUtil.GridMethodNamed | sift/extract_descriptors_cli.cc:116-132 | the extractor accepts exactly the five grid type names and refuses any other (which is fatal there) |
| CaltechUtil.GridNamesInverse | naive_bayes_nearest_neighbor/caltech_util.py:200-215 | the two mappings are inverse: every accepted name is the name of the method it is read as, and each method's name is read as that method |
| CaltechUtil.BuildCommand | naive_bayes_nearest_neighbor/caltech_util.py:217-239 | the command passes --clobber first, then one on-or-off flag per boolean option that is on exactly when the request's option is, the four floats as requested, a grid type read back as the requested method, and the given output directory and image |
| CaltechUtil.ExpectedOutputPath | naive_bayes_nearest_neighbor/caltech_util.py:151-153 | the expected output path ends in .sift and lies inside the given directory |
| CaltechUtil.CommandDeterminesFields | naive_bayes_nearest_neighbor/caltech_util.py:217-239 | the command determines every field it passes; rotation invariance, the crop box, the implementation and the resolution factor do not change it |
| CaltechUtil.ExpectedOutputOfImage | naive_bayes_nearest_neighbor/caltech_util.py:151-153 | the descriptor file of an image stem.ext is directory/stem.sift |
| CaltechUtil.DoExtraction | naive_bayes_nearest_neighbor/caltech_util.py:129-249 | a missing image is an error; otherwise the extractor command runs exactly when the output is missing or records other parameters, a malformed output raises, and otherwise nothing is done |
| CaltechUtil.SecondExtractionSkipped | naive_bayes_nearest_neighbor/caltech_util.py:149-199 | once a file holding the requested parameters is written at the expected path, extracting the same image again does nothing |
| CaltechUtil.OtherResolutionKept | naive_bayes_nearest_neighbor/caltech_util.py:160-201 | a recorded file that differs from the request only in resolution_factor is not extracted again |
| CaltechUtil.CappedSmoothing | sift/vlfeat_extractor.cc:39-46 | the kept first-level smoothing is never more than 0.0001 above the cap; a request is kept unchanged iff it is at most 0.0001 above the cap, and is replaced by the cap otherwise |
| CaltechUtil.SmoothingCappedAtMaximum | sift/vlsift_test.cc:417-424 | a request of 1.8 is kept as 4/6 when the cap is 4/6 |
| CaltechUtil.ExtractorRecords | sift/extract_descriptors_cli.cc:97-149 | the extractor records parameters iff the command carries its six flags and a grid type it knows; the fields the command cannot pass then hold its own values (the crop box 0, 0, INT32_MAX, INT32_MAX, the implementation VLFEAT, the default rotation invariance), and the first-level smoothing is the command's, capped as the extractor keeps it (vlfeat_extractor.cc:39-48, recorded at :239-240) |
| CaltechUtil.ExtractorRecordsCommand | sift/vlfeat_extractor.cc:39-48 | for the command do_extraction builds, the extractor records every passed field as requested except the first-level smoothing, which it caps, and its own values for the others (copied into the output at vlfeat_extractor.cc:239-240) |
| CaltechUtil.NextRunAfterExtraction | naive_bayes_nearest_neighbor/caltech_util.py:160-201 | once the extractor has written the expected output for a request, the next run skips the image iff the request's rotation invariance, crop box and implementation are the extractor's own and its first-level smoothing is at most 0.0001 above the cap (vlfeat_extractor.cc:39-48), and extracts it again otherwise |
| CaltechUtil.ChangedSettingExtractsAgain | naive_bayes_nearest_neighbor/caltech_util.py:169-170 | a recorded file with another multiscale setting is extracted again with the requested command |
| CaltechUtil.DoExtractionOnList | naive_bayes_nearest_neighbor/caltech_util.py:77-108 | no parameters is a RuntimeError, an empty list an IndexError and a pool of fewer than one process a ValueError, and only these; otherwise there is one outcome per item |
| CaltechUtil.ChunkSize | naive_bayes_nearest_neighbor/caltech_util.py:105-106 | map_async's chunk size is the item count divided by four times the pool size, rounded up: at least 1 for a non-empty list |
| CaltechUtil.ChunkStart | naive_bayes_nearest_neighbor/caltech_util.py:105-106 | the chunk that holds item i starts at or before i and ends after it |
| CaltechUtil.RunChunkAt | naive_bayes_nearest_neighbor/caltech_util.py:105-106 | inside one work unit of the pool, item i is attempted iff no earlier item of the chunk raised |
| CaltechUtil.RunChunksAt | naive_bayes_nearest_neighbor/caltech_util.py:105-106 | over all work units, item i is attempted iff no earlier item of its own chunk raised |
| CaltechUtil.ExtractionOnListAt | naive_bayes_nearest_neighbor/caltech_util.py:99-108 | item i is attempted iff no earlier item of its chunk raised, for a missing image or a malformed recorded file; an attempted item has do_extraction's own outcome, and a missing image raises |
| CaltechUtil.MissingImageSkipsChunk | naive_bayes_nearest_neighbor/caltech_util.py:105-106 | with one process and eight items the chunks hold two items, so a missing first image means the second is never extracted |
| CaltechUtil.DirectoriesToCreate | naive_bayes_nearest_neighbor/caltech_util.py:93-95 | the directories created are exactly the list's directories that do not exist yet |

## Left out

- The nearest-neighbour library (FLANN) is not modelled: index building, autotuning, the choice of index family and `knnSearch` are absent. Its answers are inputs that satisfy the index contract: the assignment rows and final search of the codebook builder, the per-dictionary searches of the pyramid builder, and the per-class and merged searches of the classifiers.
- SiftUtil.LoadArrayFromFiles: the files are taken as already decoded descriptor sets, so the script's read failures are not modelled. load_descriptors (sift/sift_util.py:44-53) raises IOError for a missing file and struct.error for one too short for its size fields or payload; either is raised in the loading loop (:162-163) and, when max_points is given, already in the counting pass (:154, through :70-78). That counting pass opens each name without os.path.expanduser, so with max_points a `~/` name raises IOError there although the loop would expand it.
- Codebooks.CodebookBuilder.Cluster: exact k-means is a FLANN call, so only its precondition, the truncation and the shape of its output are modelled. The index's centres are an input that must have the data's width D, because the source allocates centroids_ as K x data_dimensions_ (codebooks/codebook_builder.cc:161-163) and the index fills it; with that, the dictionary is K centroids of D bins each. Which centres the index finds is not modelled.
- Random numbers (`std::rand`, the clock-seeded `mt19937`, `random.sample`, `std::random_shuffle`) are input sequences of draws. A shuffle is any permutation of the class list.
- Floating point is exact `real` arithmetic; IEEE rounding is not modelled. The uint8 narrowing and the `+0.5` truncation of the location columns are written out.
- `exp` in the soft weights is an input function assumed positive.
- TrainerCli.BuildGramMatrix: the shard bounds computed with `sqrt` are a parameter, required only to fall from n and to end at 0.
- The c-grid stepping of the SVM search, SVM training, prediction and model I/O (libsvm) are not modelled.
- Threads are not modelled. The pyramid builder's `Init` pool, the gram-matrix shards and the Python process pool are executed one after another. The shards write disjoint rows, so the order does not change the result. The mutex-guarded result maps are left out with the threads.
- File and process I/O are values:
  - the file system is a map from path to bytes;
  - protobuf messages are opaque byte strings, parsed by a function passed in;
  - `glob` results and environment variables are parameters;
  - the extractor subprocess is the command returned as a value.
- `os.makedirs` is modelled only as the set of directories to create, and printed output is not modelled.
- CaltechUtil.BuildCommand: `%f` formatting of the four float options is not modelled; they are carried as reals.
- The command-line `main`s, the experiment scripts and the checkpoint files are not modelled; they are flag parsing and plumbing.
- Memory management and destructors are not modelled. In particular, the NBNN destructor deleting each stored index exactly once has no counterpart, because Dafny has no deallocation.
- `recursiveFunctionApplication`, `fexists` and the file-writing helpers of util.h are not modelled. `HasKey`, `PollForAvailablePoolSpace` and `JoinWithPool` are not part of this model.
- Nbnn.NbnnClassifier.GetClassList carries no contract beyond returning the class list, kept in insertion order by `AddClass`.
- PyramidBuilder.SpatialPyramidBuilder.BuildPyramid and PyramidBuilder.SpatialPyramidBuilder.BuildSingleLevel:
  - the grid size `1 << level` is unbounded, so the 32-bit overflow for levels of 31 and more is not modelled;
  - descriptors of differing widths would overrun the query buffer, which is undefined behaviour, so equal widths are a precondition;
  - every dictionary slot must be loaded (`Ready`). A slot that `Init` left unset is null, and both methods read its row count through it. BuildSingleLevel requires this only when there is exactly one dictionary, because otherwise its CHECK fails first;
  - a negative k with descriptors is Fatal, standing for the `std::bad_array_new_length` that the allocation of the neighbour matrices throws.
- PyramidBuilder.SpatialPyramidBuilder.BuildSingleLevel: `level` is a natural number. A negative level evaluates `1 << level`, which is undefined behaviour.
- Merged.MergedClassifier.BuildIndex: at least one stored row is a precondition. With none, the copy reads from row -1 (`(*data_)[data_size_ - 1]`), which is undefined behaviour.
- PyramidBuilder.Finish: a cell whose average-pooled total is 0 is kept as it is, where the code would divide by 0. With positive soft weights the total is 0 only for an empty map, on which the code's division loop does nothing, so the two agree.
- Codebooks.CodebookBuilder.AddData:
  - a batch of mixed widths would overrun its rows, which is undefined behaviour, so one width per batch is a precondition;
  - a later batch must have the width of the rows already stored. The code accepts another width, but it writes the new rows with the old column stride and re-strides the flat buffer when it grows, so the stored rows become garbled. The model does not capture that.
- Codebooks.CodebookBuilder.Cluster and Codebooks.CodebookBuilder.ClusterApproximately: with K > 0 and no rows added, the truncation copies from row -1. The code's own comment records this as a segmentation fault. At least one row is therefore a precondition when K > 0.
- KMeans.DrawsSuffice: subsampled k-means++ over fewer than 5 rows subsamples round(0.1 n) = 0 rows. It would then pick the first centre from an empty pool with a uniform draw over [0, 2^32 - 1], which is undefined behaviour. A subsample of at least one row is therefore required.
- Nbnn.NbnnClassifier.Classify:
  - descriptor 0 is read to size the query and converted into a 130-byte buffer, so a non-empty set of equal widths of at most 130 is a precondition;
  - `nearest_neighbors >= 1` is required because the code reads neighbour 0 of each row.
- Merged.MergedClassifier.Classify:
  - a negative `background_index` is cast to uint64 and gives b = data size, which is modelled. `background_index != 0` is a precondition, because b = 0 reads neighbour column -1 of every query row;
  - `nearest_neighbors >= 0` is a precondition. A negative k is compared as a size_t and runs the neighbour loop past column b - 1;
  - every kept query descriptor must have the width `data_dimensions`. The temporary query buffer is sized by `data_dimensions`, so a wider descriptor overruns it.
- Merged.MergedClassifier.AddData: a non-empty set added after BuildIndex is excluded by a precondition. BuildIndex leaves the store exactly data_size_ rows long and builds the index over it, so the next non-empty add must grow the store, and growing deletes the buffer the index still reads (undefined behaviour); the index would not hold the new rows either.
- Merged.MergedClassifier.AddData: adding data while the dimension is still 0 (descriptors with no bins and alpha <= 0) is excluded when rows are already stored. The code would recompute the dimension then, under rows of the old width.
- CaltechUtil.SplitIntoTrainTestRandom: the `None` defaults of `num_train` and `num_test` raise TypeError in the script; the model takes integers only.
- CaltechUtil.DoExtractionOnList:
  - `map_async` results are never collected, so one item's failure is not reported to the caller. The model returns every item's outcome, or None for an item its chunk never reached;
  - `num_processes=None`, which Python turns into the CPU count, is not modelled.
- CaltechUtil.ExtractorRecords: only the parameters the extractor records are modelled. Its flags are read back by position from the command, and the enum value of VLFEAT and the message defaults are parameters. Image decoding and the descriptors themselves are not modelled. CaltechUtil.NextRunAfterExtraction takes the extractor's output file to be at the expected output path.
- CaltechUtil.CappedSmoothing: the cap minimum_bin_size_ / magnif_ is a real parameter, because the value of magnif_ is not part of this model (the extractor's own test implies 6, a cap of 4/6). The cap is computed in single-precision float in the source and exactly here.
- SiftUtil.MergeDescriptorSets: the default values of an `ExtractionParameters` message come from a schema that is not part of this model, so they are a parameter.
- SiftUtil.ReadDescriptorSetFromFile: a file too short for the lengths it announces is read past its end. The result is undefined behaviour; the model reports it as Fatal.
- SpatialPyramidKernel.SpmKernel: `num_levels >= 1` is a precondition. With fewer levels the code shifts by a negative amount (`1 << -1`) and reads level 0 of a possibly empty pyramid, both undefined behaviour.
- TrainerCli.BuildGramMatrix: the kernel is an input function of two example positions. The kernels' own CHECK on unequal level counts is therefore not modelled; SpatialPyramidKernel.LinearKernel and SpatialPyramidKernel.SpmKernel model it.

## Notes on the code

- The script compares rotation invariance, the crop box and the implementation when deciding whether to re-extract, but the extractor command never passes them (CaltechUtil.CommandDeterminesFields). The extractor records its own values for them: the crop box 0, 0, INT32_MAX, INT32_MAX, the implementation VLFEAT and the default rotation invariance. A request with other values of those fields therefore matches no file the command produces, and its images are extracted again on every run (CaltechUtil.NextRunAfterExtraction). A file recorded with other values is re-extracted only once, if the request has the extractor's values. The same holds for a first-level smoothing more than 0.0001 above the extractor's cap (4/magnif): the extractor records the cap instead, which differs from the request by more than the script's tolerance of 0.00001, so such a request is also extracted again on every run.
- The script never compares `resolution_factor`, so a file recorded with another resolution factor is kept (CaltechUtil.ResolutionFactorIgnored, CaltechUtil.OtherResolutionKept).
- The random k-means initialisation never records the rows it has chosen, so centres may repeat (KMeans.RandomSeedsMayRepeat).
- The empty-cluster counter counts once per dimension (KMeans.EmptyCoordinatesCount).
- A coordinate equal to 1.0 falls in no pyramid cell (PyramidBuilder.NoCellAtOne).

## Findings

| source | as written | input that shows it | evidently intended | confidence | as-written member | corrected member |
|---|---|---|---|---|---|---|
| naive_bayes_nearest_neighbor/caltech_util.py:68 | `os.path.join(caltech_image_directory, image_path)` joins the image directory onto a glob match that already starts with it | the relative image directory "caltech" and the match "caltech/faces/image_0001.jpg" give "caltech/caltech/faces/image_0001.jpg", a file glob did not find | the item names the matched image itself, as the docstring at lines 59-61 describes | high; not executed | CaltechUtil.RelativeDirectoryDoubled | CaltechUtil.IntendedItemOfMatch |
