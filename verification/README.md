# A verified model of RCOMPSs

RCOMPSs turns an R call into a remote one. The master matches the arguments to the formals, writes
what is not a scalar to files in a versioned binary format, and hands a flat block of parameters to
the COMPSs runtime. An executor receives a line of words, rebuilds the argument list, calls the R
function and writes the result back. Iterative programs (k-means, k nearest neighbours, linear
regression) split their data into fragments, compute partial results and reduce them through a queue.
GPU code works in named run contexts that own a stream, library handles and work buffers.

The modules follow those parts:

- `Bytes`, `RValues`, `Format`: R values as the serializer sees them, what a file keeps of them (the
  projection), the bytes of every format version and the parse of any byte sequence. `RoundTrip` and
  `Canonical` have the theorems about them, `Layout` the bytes themselves.
- `Writer`, `RHeap`, `Reader`: the stream routines as they are written. The reader works on an R heap
  in which the collector runs at every allocation and keeps only what the PROTECT stack reaches.
- `TreeReduction`: the reduction loop that all three programs share. `LinearAlgebra`, `KMeans`,
  `LeastSquares`, `Nearest`, `Knn`, `KnnTasks`: the programs, over exact reals, with R's rules on
  when `x[i, j]` is no longer a matrix.
- `Matching`, `PathNames`, `Decorator`, `Parameters`: the master's half of a call.
- `Tokens`, `Texts`, `Wire`, `Executor`: the executor's half. `EndToEnd` joins the two halves.
- `RunContexts`, `ContextRegistry`: ownership of GPU resources, and of the contexts themselves.

Methods over classes or loops (streams, heap, executor, contexts, the R loops) are proved against
specification functions, and the properties are lemmas about those functions. "Throws" or an R error
is a value (`None`, `Err`, `false`, `null`), never a precondition.

What the model takes for granted:

- the COMPSs runtime's encoder is not in the repository. `Wire.EncodeHeader` and `Wire.EncodeEntry`
  are a layout read off the executor's own index arithmetic (src/executor/ExecutorCore.cpp:221-261),
  and `EndToEnd.Faithful` says that its texts for numbers and paths are read back as they were meant
  (for integers, decimal text is proved to be);
- `solve` returns a solution or stops (`LeastSquares.Sound`, met by `LeastSquares.SolveOne`); the
  nearest-neighbour search is exact (`Knn.Exact`, met by `Knn.FullSort`);
- what R, the file system and the called function do with a request is a `World` parameter; unique
  names are parameters.

Results about the code that its documentation does not say:

- a vector of 2^32 or more elements loses its length (`RoundTrip.OverlongVectorIsLost`);
- a request line without parameters is read with its three trailing words as parameters, and its
  task then always fails, without a call of the function (`Wire.RequestReadBack`,
  `Executor.RequestWithoutParametersFails`);
- the reader accepts array tags without a dim and array tags in front of one another, which the writer
  never emits; nothing else is accepted that the writer would write differently
  (`Canonical.AcceptedIsWrittenIff`, `Canonical.EmptyWrapperIsAccepted`);
- a NULL in a call makes a formal disappear (`Matching.MatchFormals`, `Matching.NullLosesAFormal`);
- symbols are dropped from the values but not from the names and types, which then no longer belong
  together (`Decorator.AlignedIffSymbolsLast`, `Decorator.AlignedWithReturnIff`);
- a string argument loses tabs, line breaks and repeated blanks, and the missing string becomes "NA"
  (`EndToEnd.StringArrives`);
- the method spelled "rmvl" is written by RMVL and read by the C++ reader
  (`PathNames.FileIsReadAsWritten`, `PathNames.LowerCaseRmvlDisagrees`);
- freeing a work buffer by `FreeWorkBufferDevice` or `FreeWorkBufferHost`, or asking a GPU context to
  become one again, leads to a second release (`RunContexts.ReleasedExactlyOnce`);
- creating a context under a name in use leaks the old one, and nothing else leaks
  (`ContextRegistry.NothingLeaksIff`);
- a one-row fragment with several predictors gives a 2 by 2 matrix for Z'Z; a regression on nothing
  but such fragments returns a 2 by 1 answer without an error when there are as many responses as
  predictors (`LeastSquares.FitLinearRegression`, `LeastSquares.LoneRowIsAnswered`);
- KNN on a single test row returns k predictions, or stops; with k = 1 it always stops
  (`KnnTasks.ClassifyAll`, `KnnTasks.LoneTestRowGetsTwoPredictions`);
- k-means with one centre stops when it needs a second iteration, and with one column when a fragment
  has two points in one cluster (`KMeans.KmeansFrag`, `KMeans.OneCentreNeedsASecondIteration`,
  `KMeans.OneColumnStops`);
- a read that fails behind its first allocation leaves vectors on the PROTECT stack, and how many is a
  function of the bytes (`Reader.Unserialize`, `Reader.TruncatedFileLeavesOne`);
- with arity 1 the reduction loop never stops (`TreeReduction.ArityOneNeverStops`).

## Model

| member | source | states |
|---|---|---|
| RoundTrip.RoundTripExactly | src/core/Serialization.cpp:101-297 | for a supported value and any bytes behind it, reading gives its projection and leaves exactly those bytes if and only if every length fits 32 bits |
| RoundTrip.OverlongVectorIsLost | src/core/Serialization.cpp:119-128 | a logical vector of 2^32 elements is read back empty, with all its data left over |
| RoundTrip.FileRoundTrip | src/core/Serialization.cpp:301-328 | a whole file, header included, reads back as the projection with nothing left over |
| RoundTrip.MatrixRoundTrip | src/core/Serialization.cpp:101-110 | the file of any r by c matrix of numbers or strings, with or without row and column names, reads back as that matrix |
| RValues.MatrixAccepted | src/core/Serialization.cpp:215-216 | dim [r, c] is taken by exactly the vectors of r * c elements, and names by exactly the matrices with that many rows and columns |
| RValues.ProductOfParts | src/core/Serialization.cpp:215 | the extents of a dim multiply, however it is split |
| Layout.FileStart | src/core/Serialization.cpp:301-309 | a file starts with the bytes "CSSR", 3, 0, 0, 0 |
| Layout.HeaderTaken | src/core/Serialization.cpp:316-323 | of all eight-byte headers the reader takes those four bytes with version 1, 2 or 3, and no other |
| Layout.AtomicKinds | src/core/Serialization.cpp:112-160 | the bytes of null and of a logical, integer, double and string vector of one element, and of a missing string |
| Layout.ListBytes | src/core/Serialization.cpp:157-196 | the bytes of a list of one element, with and without names, and without them in version 1 |
| Layout.ArrayBytes | src/core/Serialization.cpp:101-110 | an array is tag 6, its dim, its dimnames and its value |
| Layout.WordBytes | src/core/Serialization.cpp:29-53 | words are little-endian both ways, and -1 is four bytes 255 |
| RoundTrip.EncodeOfProjection | src/core/Serialization.cpp:101-203 | a value and its projection are written as the same bytes, at every version |
| RoundTrip.SameBytesIffSameProjection | src/core/Serialization.cpp:101-203 | two values are written alike if and only if their projections are equal |
| RoundTrip.ReadIsWritable | src/core/Serialization.cpp:205-297 | whatever the bytes, a value that was read has lengths that fit, types the writer knows and dims R accepts, arrays included |
| RoundTrip.ReadIsItsProjection | src/core/Serialization.cpp:205-297 | a value that was read, array or not, has nothing that a file would not keep |
| RoundTrip.ReadSurvivesRewriting | src/core/Serialization.cpp:101-297 | for any accepted bytes of any version, writing the value and reading it again gives that very value and leaves what follows, and so does a whole file |
| RoundTrip.BodiesOf2And3Agree | src/core/Serialization.cpp:15-18 | the bodies of versions 2 and 3 are byte-identical |
| RoundTrip.Version2IsVersion3WithoutArrays | src/core/Serialization.cpp:208-211 | on any bytes the version 2 reader succeeds exactly when the version 3 reader does and meets no array tag, and then they agree |
| RoundTrip.OldVersionsMeetNoArray | src/core/Serialization.cpp:208-211 | at version 1 or 2 a successful parse has met no array tag and gives an array-free value |
| RoundTrip.OldVersionRoundTrip | src/core/Serialization.cpp:161-192 | at versions 1 and 2 the written bytes are accepted if and only if the value is array-free, and then give its projection, from which version 1 drops list names |
| Canonical.AcceptedIsWritten | src/core/Serialization.cpp:205-297 | the converse: array-free bytes accepted at any version are exactly what the writer emits for the value read, up to what was left unread |
| Canonical.AcceptedFileIsWritten | src/core/Serialization.cpp:301-328 | an array-free version 3 file that is accepted and read to its end is the file written for the value read |
| Canonical.AcceptedIsWrittenIff | src/core/Serialization.cpp:205-297 | with arrays: bytes accepted at version 3 are exactly what the writer emits for the value read if and only if every array tag is followed by a dim that is not null and by a value with no array tag of its own |
| Canonical.AcceptedFileIsWrittenIff | src/core/Serialization.cpp:301-328 | the same for a whole version 3 file read to its end |
| Canonical.EncodingIsWrapped | src/core/Serialization.cpp:101-110 | everything the writer emits meets that condition |
| Canonical.EmptyWrapperIsAccepted | src/core/Serialization.cpp:208-218 | an empty vector behind an array tag without dims is accepted, and is not what the writer emits for it |
| Format.Parse | src/core/Serialization.cpp:205-297 | on any finite bytes the parse ends with a value or an error, and a value has consumed at least four bytes |
| Format.ParseAll | src/core/Serialization.cpp:286-289 | n elements take at least four bytes each, so a count larger than the input can carry ends in an error |
| Writer.WriteSEXP | src/core/Serialization.cpp:101-110 | appends exactly the encoding; throws just on a value with an unknown type, and never takes written bytes back |
| Writer.WriteValue | src/core/Serialization.cpp:112-203 | the same for the value without its array wrapper |
| Writer.WriteElements | src/core/Serialization.cpp:193-195 | the element loop writes the elements in order or throws at an unsupported one |
| Writer.WriteNames | src/core/Serialization.cpp:161-192 | the names block: absent in version 1, a flag and the names of a full-length character vector after it |
| Writer.Serialize | src/core/Serialization.cpp:301-309 | magic, version 3, one value |
| RHeap.DenotesLater | src/core/Serialization.cpp:205-297 | an object graph keeps its value over any evolution of the heap that leaves its root reachable |
| RHeap.DenotesBeside | src/core/Serialization.cpp:205-297 | writes outside a graph's own cells do not change its value |
| RHeap.DenotesOneValue | src/core/Serialization.cpp:205-297 | an object stands for one value at most |
| RHeap.AcceptanceAgrees | src/core/Serialization.cpp:215-216 | whether setting dim and dimnames succeeds depends only on the values the objects stand for |
| RHeap.Heap.Collect | src/core/Serialization.cpp:223-225 | a collection keeps what the PROTECT stack reaches and nothing else |
| RHeap.Heap.Alloc | src/core/Serialization.cpp:223-225 | every allocation collects first, then adds the one new object |
| Reader.ReadStringRef | src/core/Serialization.cpp:80-94 | the string read is live but unprotected, so it must be stored before the next allocation |
| Reader.FillStrings | src/core/Serialization.cpp:257-260 | each string is stored into the protected vector before the next can be collected around it |
| Reader.ReadIntVector | src/core/Serialization.cpp:221-242 | one protected logical or integer vector, equal to the parse |
| Reader.ReadRealVector | src/core/Serialization.cpp:243-251 | one protected double vector, equal to the parse |
| Reader.ReadStringVector | src/core/Serialization.cpp:252-262 | one protected character vector, equal to the parse |
| Reader.ReadNamesInto | src/core/Serialization.cpp:268-285 | the names vector is kept alive by the list once it is attached, and stack and count are back where they were |
| Reader.FillList | src/core/Serialization.cpp:286-289 | every element read so far is still intact while the next is read; the stack has grown by the nodes of the elements |
| Reader.ReadList | src/core/Serialization.cpp:263-291 | the list, its names and all its elements denote the parse |
| Reader.ReadArray | src/core/Serialization.cpp:208-218 | dim and dimnames survive until they are attached to the value |
| Reader.ReadSEXP | src/core/Serialization.cpp:205-297 | the object built denotes exactly the parsed value and errors are exactly the parse errors; with or without one, stack and protect_count both grow by the number of vectors that these bytes make the reader protect, and nothing is popped that was there before |
| Reader.ReadVersion | src/core/Serialization.cpp:316-323 | the magic number and a version from 1 to 3 are demanded, and the stream is then behind the header |
| Reader.Unserialize | src/core/Serialization.cpp:311-328 | the result denotes the parsed file and the PROTECT stack is as it was on entry; after an error it is higher by the number of vectors protected until then, and it is as it was if and only if the file parses or nothing was allocated |
| Reader.TruncatedFileLeavesOne | src/core/Serialization.cpp:221-230 | a file cut off in front of the data of a logical vector fails with one vector left on the stack |
| Format.ProtectedIsNodes | src/core/Serialization.cpp:205-297 | when a value is read, the vectors protected are the vectors allocated for it, names vectors excepted |
| TreeReduction.TurnsClosedForm | examples/kmeans/functions_kmeans.R:46-65 | the number `Turns` is max(0, ceil((n - a) / (a - 1))) |
| TreeReduction.LoopTurns | examples/kmeans/functions_kmeans.R:46-65 | the loop on n inputs is still going after fewer than `Turns` turns and has its final queue after exactly so many, for any merge |
| TreeReduction.ArityOneNeverStops | examples/kmeans/functions_kmeans.R:46-65 | with arity 1 the queue keeps its length, so a loop that starts does not end |
| TreeReduction.ReduceTracksTrees | examples/knn/function_knn.R:22-26 | the leaves of the queue, left to right, always are a rotation of the inputs |
| TreeReduction.TotalIsTreeOverRotation | examples/linear_regression/functions_linear_regression.R:22-35 | the result is a tree of merges that uses every input exactly once, in rotated order, for any merge at all |
| TreeReduction.TotalIsFold | examples/kmeans/functions_kmeans.R:46-74 | for a commutative and associative merge the result is the plain fold, whatever the arity |
| LinearAlgebra.Merge | examples/kmeans/tasks_kmeans.R:126-151 | the accumulating loop of `merge` is the left sum of its inputs, and stops on different shapes and on no input |
| LinearAlgebra.TreeMerge | examples/linear_regression/functions_linear_regression.R:23-28 | the while loop over the queue is the tree reduction, stops included, and makes exactly `Turns` turns |
| LinearAlgebra.PlusIsSemigroup | examples/kmeans/tasks_kmeans.R:138-142 | the sum that stops on different shapes commutes and associates, so the fold theorem applies to `merge` |
| LinearAlgebra.TreeSumOfMatrices | examples/linear_regression/functions_linear_regression.R:44-50 | the reduction goes through if and only if all inputs have one shape, and then it is their sum, whatever the arity |
| LinearAlgebra.StackInPlace | examples/kmeans/functions_kmeans.R:137-141 | every fragment is in the stacked data, behind the ones before it |
| KMeans.WhichMin | examples/kmeans/tasks_kmeans.R:71 | the first position of a smallest distance |
| KMeans.PartialSumRow | examples/kmeans/tasks_kmeans.R:77-103 | row c of the partial is the column sums of the points nearest to centre c, and their number |
| KMeans.PartialSumTask | examples/kmeans/tasks_kmeans.R:42-109 | the row-by-row loop with its three cases computes that partial, and stops exactly on centres that lost their matrix shape or, with one column, on a cluster of two or more points |
| KMeans.SumStopsIff | examples/kmeans/tasks_kmeans.R:77-103 | it stops on such a cluster exactly when two points of a one-column fragment have the same nearest centre |
| KMeans.ClusterRow | examples/kmeans/tasks_kmeans.R:88-102 | no point, one point and several points all give sums and count |
| KMeans.MergedPartialIsWhole | examples/kmeans/functions_kmeans.R:46-74 | for every fragmentation and arity the merged partial is that of the stacked data |
| KMeans.RecomputeCentres | examples/kmeans/functions_kmeans.R:28-91 | each non-empty cluster moves to its mean, each empty one to some point of the unit cube; the centres become a bare vector exactly when no cluster is empty and there is a single centre or column |
| KMeans.BareAfterIff | examples/kmeans/functions_kmeans.R:76-82 | an iteration leaves a bare vector exactly with one centre or column, when every centre is nearest to some point |
| KMeans.ConvergedIff | examples/kmeans/functions_kmeans.R:10-26 | `converged` compares the distance of old and new centres, taken as one vector of all coordinates, with epsilon; so no centre has moved by epsilon or more, and centres that have not moved have converged |
| KMeans.TotalIsOneDistance | examples/kmeans/functions_kmeans.R:18 | the sum over the rows is that one squared distance |
| KMeans.CostIsPotential | examples/kmeans/tasks_kmeans.R:100-101 | with the assignment fixed, the cost of any centres is a constant of the data plus a linear function of the partial |
| KMeans.PotentialGain | examples/kmeans/functions_kmeans.R:76-82 | recentring gains exactly the sum of cluster size times squared move |
| KMeans.LloydStep | examples/kmeans/functions_kmeans.R:76-82 | on the whole data the within-cluster sum of squares falls by at least that gain |
| KMeans.LloydDescent | examples/kmeans/functions_kmeans.R:120-162 | one distributed iteration never raises the sum of squares, for every data set, fragmentation and arity, and whatever empty clusters are given |
| KMeans.Iterate | examples/kmeans/functions_kmeans.R:137-155 | the loop body stops exactly when a partial sum does; otherwise the centres are recentred on the whole data and the sum of squares is not raised |
| KMeans.KmeansFrag | examples/kmeans/functions_kmeans.R:108-167 | the centres of the run form a descending Lloyd trajectory of the stacked data; the loop ends at the first small move or at the limit, and `converged` says which, or stops in an iteration that cannot be done. With two or more centres and columns it goes through; when the first iteration leaves a bare vector, as with one centre or with one column and no empty cluster, it goes through if and only if that iteration does and is enough |
| KMeans.OneCentre | examples/kmeans/functions_kmeans.R:82 | with one centre an iteration yields the mean of all points, as a bare vector |
| KMeans.OneCentreNeedsASecondIteration | examples/kmeans/functions_kmeans.R:119-162 | a run with one centre that stops |
| KMeans.OneCentreIsBare | examples/kmeans/functions_kmeans.R:82 | with one centre and two or more columns the first iteration leaves a bare vector, and going through comes down to one test on the mean of all points |
| KMeans.OneColumnStops | examples/kmeans/tasks_kmeans.R:100-101 | a one-column fragment whose partial sum stops |
| KMeans.NoStop | examples/kmeans/tasks_kmeans.R:49-103 | with two or more columns no partial sum stops on a matrix of centres, and with two or more centres their shape is kept |
| LeastSquares.PartialZtzIsGramExactly | examples/linear_regression/tasks_linear_regression.R:42-61 | the product is the fragment's Gram matrix if and only if the fragment has more than one row or one predictor |
| LeastSquares.PartialZty | examples/linear_regression/tasks_linear_regression.R:63-75 | the moments of the fragment if it keeps its shape; on a lone row with several predictors a 2 by 1 matrix when there are as many responses, and else a stop |
| LeastSquares.MergedIsWhole | examples/linear_regression/functions_linear_regression.R:39-57 | when every fragment keeps its shape, both reductions give the matrices of the stacked data, whatever the fragmentation and the arity |
| LeastSquares.MergedIsWholeExactly | examples/linear_regression/functions_linear_regression.R:39-50 | the merged Z'Z is that of the stacked data if and only if every fragment keeps its shape |
| LeastSquares.LostShapes | examples/linear_regression/functions_linear_regression.R:44-50 | a reduction with some fragments that keep their shape and some that lose it stops; with only such it gives two rows |
| LeastSquares.LoneRowsGoThrough | examples/linear_regression/functions_linear_regression.R:39-57 | lone rows with as many responses as predictors add up without a stop, to a 2 by 2 and a 2 by 1 matrix |
| LeastSquares.CrossIsNormalResidual | examples/linear_regression/tasks_linear_regression.R:56-74 | the cross term of a change of coefficients is its inner product with the residual of the normal equations |
| LeastSquares.NormalEquationsIffMinimiser | examples/linear_regression/tasks_linear_regression.R:77-80 | coefficients solve the normal equations if and only if no others have a smaller residual sum of squares |
| LeastSquares.SolutionFitsBest | examples/linear_regression/tasks_linear_regression.R:77-80 | a solution of the matrix equation does so for every response column |
| LeastSquares.CrossProductAt | examples/linear_regression/tasks_linear_regression.R:56-74 | entry (i, j) of `t(z) %*% y` is the product of column i of z and column j of y |
| LeastSquares.ResidualsOfData | examples/linear_regression/tasks_linear_regression.R:51-74 | the residuals that are minimised are those of the data rows: response minus intercept minus the weighted predictors |
| LeastSquares.PartialProducts | examples/linear_regression/functions_linear_regression.R:40-43 | the loop fills both lists with the partials of the fragments, in order, or stops in `partial_zty` |
| LeastSquares.FitLinearRegression | examples/linear_regression/functions_linear_regression.R:11-63 | when every fragment keeps its shape, the fitted parameters satisfy the normal equations of all the data, and no others have smaller squared residuals over its rows, for every response; when all lose it and there are as many responses as predictors, what `solve` finds for the two sums is 2 by 1 and no fit; otherwise the program stops |
| LeastSquares.LoneRowIsAnswered | examples/linear_regression/functions_linear_regression.R:39-57 | one row with two predictors and two responses: the two sums, and the 2 by 1 solution that a sound `solve` returns for them |
| Nearest.MergeRowSelects | examples/knn/task_knn.R:87-105 | the merged row lists k nearest of the candidate pairs, in order, each label with its own distance |
| Nearest.MergeKeepsNearest | examples/knn/task_knn.R:71-121 | k nearest of each part merge to k nearest of the union of the parts |
| Nearest.TotalIsNearest | examples/knn/function_knn.R:35-40 | so does the whole reduction, for every arity |
| Nearest.SameDistances | examples/knn/task_knn.R:101-103 | all selections of k nearest have the same distances, so ties can only change labels |
| Nearest.OrderIsStable | examples/knn/task_knn.R:100-103 | the sort keeps the order of equal distances |
| Nearest.Count | examples/knn/task_knn.R:140-142 | counting a label gives its multiplicity |
| Nearest.Unique | examples/knn/task_knn.R:141 | the distinct labels, each once |
| Nearest.Mode | examples/knn/task_knn.R:140-143 | a label of the largest multiplicity |
| Nearest.ModeIsFirst | examples/knn/task_knn.R:140-143 | among labels of one multiplicity, the one met first |
| Nearest.ModeIff | examples/knn/task_knn.R:140-143 | the mode is the one label that no other exceeds in multiplicity or, with the same multiplicity, precedes |
| Knn.FragRowIsNearest | examples/knn/task_knn.R:36-69 | a fragment's row lists k nearest of the pairs the fragment offers, labels with their distances |
| Knn.FullSortIsExact | examples/knn/task_knn.R:36-69 | a search that sorts all the points meets what is asked of the search, for any metric |
| Knn.ReducedRowIsNearest | examples/knn/function_knn.R:32-40 | the reduced row lists k nearest of all training pairs |
| Knn.TotalRow | examples/knn/function_knn.R:35-39 | reducing matrices is reducing each of their rows |
| KnnTasks.RegularMerge | examples/knn/task_knn.R:71-121 | column selection, binding, sorting and indexing of the matrices amount to merging row by row |
| KnnTasks.LoneMerge | examples/knn/task_knn.R:87-105 | merging the results of one test row with k of two or more gives k rows |
| KnnTasks.LoneMergeRow | examples/knn/task_knn.R:87-105 | row r of that result sorts the cells of rank r of all inputs, whichever fragment they come from |
| KnnTasks.CellOrderSorts | examples/knn/task_knn.R:100-103 | with NAs among the distances the sort keeps the positions of the numbers, each once, ascending, ties in order |
| KnnTasks.MergeIsRegularIff | examples/knn/task_knn.R:71-121 | merging is merging row by row if and only if there are two or more test rows, one neighbour, or one input |
| KnnTasks.FragSheet | examples/knn/task_knn.R:36-69 | distances and labels for each test row |
| KnnTasks.RegularClassification | examples/knn/task_knn.R:123-150 | with two or more test rows and neighbours, the most frequent label of each merged row |
| KnnTasks.ClassificationStops | examples/knn/task_knn.R:139-144 | with one neighbour, or a lone row that nothing was merged into, `apply` stops |
| KnnTasks.LoneClassification | examples/knn/task_knn.R:123-150 | a lone test row that was merged gets k predictions |
| KnnTasks.LoneTestRowGetsTwoPredictions | examples/knn/task_knn.R:87-144 | one test row, two fragments and k = 2: two predictions, with their values |
| KnnTasks.ReduceAndClassify | examples/knn/function_knn.R:35-40 | the while loop, which makes exactly `Turns` turns, and the final classification; when it stops, and how many predictions it makes otherwise |
| KnnTasks.ClassifyFragment | examples/knn/function_knn.R:30-40 | the same for one test fragment |
| KnnTasks.ClassifyAll | examples/knn/function_knn.R:11-45 | every test point of every test fragment gets one prediction, a label of largest multiplicity among k nearest of all training pairs and of those the nearest, if and only if k and the rows of every test fragment are two or more; otherwise the run stops or a lone test row gets k predictions, and it is said which |
| Matching.FirstNamed | R/RCOMPSs-package.R:610-611 | indexing by name takes the first element of that name |
| Matching.MatchFormals | R/RCOMPSs-package.R:595-617 | both loops make one turn for each formal; they give each its named value, else the unnamed value of its rank among the unmatched formals, else its default, if and only if no formal is supplied with NULL |
| Matching.PositionalWithoutNames | R/RCOMPSs-package.R:598-604 | without names in the call, that rule is matching by position |
| Matching.DistinctFormalsDistinctValues | R/RCOMPSs-package.R:607-616 | no value goes to two formals, and unnamed values go in order |
| Matching.NullLosesAFormal | R/RCOMPSs-package.R:602 | a call with a NULL argument where the rule is not met |
| Matching.NullMisplacesTheNext | R/RCOMPSs-package.R:598-604 | with two formals a leading NULL takes the first away, and the next value ends up without a name |
| Matching.BuildVariableArgumentNames | src/core/StringUtils.cpp:19-30 | names made of the function's name and 1, 2, 3, ... |
| Matching.VariableNamesDiffer | src/core/StringUtils.cpp:19-30 | no two of them are equal |
| Matching.MatchArguments | R/RCOMPSs-package.R:577-618 | dots alone take every value in order under made-up names; dots beside others are an error; otherwise the rule, if and only if no formal is supplied with NULL |
| PathNames.Basename | src/core/PathUtils.cpp:19-28 | the longest tail of a path without a separator |
| PathNames.ArgumentMethod | src/core/PathUtils.cpp:30-65 | the method read back from an argument's file name is the one it was built with if and only if that has no dash and no separator |
| PathNames.ReturnMethod | src/core/TaskDecorator.cpp:245-265 | the same for the file of a return value |
| PathNames.SameReturnFileIff | src/core/PathUtils.cpp:67-81 | the library's name for that file is the one in use if and only if the method is not empty |
| PathNames.FilledMethods | src/compssmodule.cpp:1216-1230 | the methods in use are not empty, come from the call where it gives them, and the second is missing if and only if none was given |
| PathNames.ReturnNameMethod | src/core/StringUtils.cpp:32-34 | the prefix of the return name is the method if and only if that has no dash |
| PathNames.DistinctUidsDistinctFiles | src/core/PathUtils.cpp:45-65 | equal file names come from equal unique names |
| PathNames.DistinctUidsDistinctReturns | src/core/TaskDecorator.cpp:252-259 | the same for the files of return values |
| PathNames.ArgumentIsNoReturn | src/core/PathUtils.cpp:45-81 | with unique names of one length, no argument's file is that of a return value |
| PathNames.ArgumentFileNames | src/core/PathUtils.cpp:45-65 | such a name letter by letter, with and without a trailing slash, and with neither folder nor method |
| PathNames.ReturnFileNames | src/core/TaskDecorator.cpp:252-262 | a return file and a return name letter by letter |
| PathNames.Spellings | src/compssmodule.cpp:1494-1573 | the writer takes cpp, qs and rmvl in any case, the reader just "qs" and "RMVL" besides its default |
| PathNames.CodecsAgreeIff | src/compssmodule.cpp:1483-1611 | for a method the writer accepts, the reader picks the same codec exactly for "qs", "RMVL" and any casing of "cpp" |
| PathNames.FileIsReadAsWritten | src/compssmodule.cpp:1644-1801 | the same from end to end: file name built, method extracted, codec picked, for arguments and for return values |
| PathNames.LowerCaseRmvlDisagrees | src/compssmodule.cpp:1744-1785 | a spelling the writer takes and the reader does not |
| Decorator.ScalarsByValue | src/core/TaskDecorator.cpp:152-183 | without a class attribute just the integer, double and character scalars travel by value, under their type's code; everything else goes to a file |
| Decorator.ClassifiedByClass | src/core/TaskDecorator.cpp:152-183 | with a class attribute: by value exactly for one class integer, numeric or character on a value of length one, a future exactly for one class future_object, else an object |
| Decorator.FutureIff | src/core/TaskDecorator.cpp:173-175 | a value is a future if and only if its class attribute is future_object alone |
| Decorator.SymbolsAreLookedUp | src/core/TaskDecorator.cpp:115-149 | a symbol is classified as the value found under it, or as an object |
| Decorator.OutputFileIs | src/compssmodule.cpp:1298-1300 | the path of a future is its first element named outputfile |
| Decorator.FutureIsSent | R/RCOMPSs-package.R:806-816 | what a call gives back is a future, and its path is sent |
| Decorator.PreparedIs | src/compssmodule.cpp:1274-1301 | what is sent, case by case, and when an argument is an error |
| Decorator.KnownCodes | src/core/TypeMapper.cpp:17-35 | the codes are 0, 4, 7, 8 and 10 |
| Decorator.ProcessTaskMetadata | src/core/TaskDecorator.cpp:185-243 | five vectors of one entry per argument and one for a return value, which alone has direction out and keeps its name |
| Decorator.WrittenAt | src/compssmodule.cpp:1300-1305 | with unique names every serialized argument is found under its own file name afterwards |
| Decorator.WrittenElsewhere | src/compssmodule.cpp:1300-1305 | and no other file changes |
| Decorator.ExecuteTask | src/compssmodule.cpp:1274-1319 | fails just when an argument cannot be prepared; else all parallel vectors have length n, plus one for a return value, and entry i of each describes argument i |
| Decorator.CleanValues | R/RCOMPSs-package.R:765-778 | the values without the symbols, in order |
| Decorator.AlignedIffSymbolsLast | R/RCOMPSs-package.R:765-803 | the remaining values are still at the index of their names and types if and only if no symbol stands before another value |
| Decorator.AlignedWithReturnIff | R/RCOMPSs-package.R:765-803 | with a return value, if and only if there is no symbol at all |
| Decorator.SymbolFirstMisaligns | R/RCOMPSs-package.R:765-803 | a call where the second value is sent under the first name |
| Parameters.RankBounds | src/compssmodule.cpp:442-482 | string parameters have different ranks, so no two share a row of the table of string values |
| Parameters.RankIsCount | src/compssmodule.cpp:443-518 | the rank of a string parameter is the number of parameters of type 8 or 10 before it |
| Parameters.WhatConverts | src/compssmodule.cpp:443-518 | paths and single strings convert to text, single doubles to a double, single integers and logicals to an integer, and nothing else |
| Parameters.FieldsInOrder | src/compssmodule.cpp:443-518 | value, type, direction, stream, prefix, name, content type, weight, keep-rename |
| Parameters.ParameterBlock.FillRow | src/compssmodule.cpp:443-518 | one parameter: nine pointers, its strings appended to their tables, earlier rows untouched |
| Parameters.ParameterBlock.Fill | src/compssmodule.cpp:443-518 | it succeeds just when every value converts to its type, and then slot 9 * i + k leads to field k of parameter i, strings through their rank |
| Tokens.SplitJoin | src/executor/ExecutorCore.cpp:36-44 | words joined by single spaces are split into the same words |
| Tokens.SplitAtSpace | src/executor/ExecutorCore.cpp:36-44 | a word ends at any blank, and blanks before a word are passed over |
| Tokens.SpacesAre | src/executor/ExecutorCore.cpp:36-44 | the six blanks |
| Tokens.SplitWhitespace | src/executor/ExecutorCore.cpp:36-44 | the scanning loop yields exactly the words of the line |
| Wire.ParseTaskMessage | src/executor/ExecutorCore.cpp:159-196 | a line is taken apart by its words alone |
| Wire.RequestReadBack | src/executor/ExecutorCore.cpp:172-195 | a request is read back as it was sent if and only if it has parameters; without any, three other words take their place |
| Wire.TrueTexts | src/executor/ExecutorCore.cpp:46-51 | exactly "TRUE", "T" and "1" are true |
| Wire.PlaceholderIff | src/executor/ExecutorCore.cpp:206-211 | placeholders are the names that end in "-RETURN_VALUE" |
| Wire.StripValueIsTail | src/executor/ExecutorCore.cpp:198-204 | what is left is what follows the last colon |
| Wire.StripValueOfPath | src/executor/ExecutorCore.cpp:198-204 | a path without a colon is recovered from behind any prefix |
| Wire.BuildFunctionArgs | src/executor/ExecutorCore.cpp:214-415 | the cursor loop and the loop that drops placeholders; it throws where an index is out of range, a text is not a number or a file does not load |
| Wire.FewParametersThrow | src/executor/ExecutorCore.cpp:217-226 | with up to three parameters the header cannot be read, whatever they are |
| Wire.EntryReadBack | src/executor/ExecutorCore.cpp:231-383 | at an encoded entry the loop reads its meaning and moves by its width, which for a string depends on its number of words |
| Wire.EntriesReadBack | src/executor/ExecutorCore.cpp:231-383 | so any list of entries is read in order and the cursor ends behind the last |
| Wire.WireParserInverse | src/executor/ExecutorCore.cpp:214-415 | for any number of nodes and any entries, with or without a target object, exactly the encoded arguments are recovered, without the return placeholders, and return_index is the first word of the return entry |
| Texts.IntegerTextRoundTrip | src/executor/ExecutorCore.cpp:221-240 | `std::stoi` takes back every 32-bit integer written by `std::to_string` |
| Texts.StoiOfPrefix | src/executor/ExecutorCore.cpp:221-240 | a sign, the digits that follow, and nothing behind them; no digits and overflow throw |
| EndToEnd.DecimalTextIsFaithful | src/executor/ExecutorCore.cpp:239-242 | so for integers the assumption about the runtime's texts is met by decimal text |
| Executor.Core.TryTask | src/executor/ExecutorCore.cpp:562-780 | true just when the call and, if asked for, writing its value completed |
| Executor.Core.ExecuteTask | src/executor/ExecutorCore.cpp:539-797 | exactly one reply on every way out, END_TASK and the id with 0 just in that case and with 1 in every other |
| Executor.Core.Run | src/executor/ExecutorCore.cpp:815-835 | for any lines: one reply for each request before the first QUIT, in order; the words of each are END_TASK, the request's id, and 0 if the task completed, else 1 |
| Executor.ReplyAt | src/executor/ExecutorCore.cpp:776-796 | the i-th reply carries the id of the i-th request and whether it completed |
| Executor.ReplyLine | src/executor/ExecutorCore.cpp:776-796 | the words of the i-th reply |
| Executor.RequestWithoutParametersFails | src/executor/ExecutorCore.cpp:172-226 | a request sent without parameters never completes and never reaches the function |
| Executor.ReplyDetermines | src/executor/ExecutorCore.cpp:776-796 | a reply line determines the id and the status |
| Executor.NothingAfterQuit | src/executor/ExecutorCore.cpp:820-822 | lines behind QUIT have no effect |
| Executor.RequestsConcat | src/executor/ExecutorCore.cpp:816-828 | the requests of two batches of lines are those of the first, then those of the second |
| EndToEnd.StringArrives | src/executor/ExecutorCore.cpp:247-258 | a string arrives as its words joined by single spaces, so unchanged if and only if it was written that way |
| EndToEnd.ScalarArrives | src/executor/ExecutorCore.cpp:239-258 | an integer, a double or a single-spaced string arrives with its value |
| EndToEnd.FileArrives | src/executor/ExecutorCore.cpp:259-377 | what went through a file arrives as what the file holds |
| EndToEnd.ArgumentArrives | src/compssmodule.cpp:1274-1305 | every portable argument arrives under its formal's name with the value it was to have |
| EndToEnd.ReturnArrives | src/executor/ExecutorCore.cpp:694-701 | the return entry leads to the file and the method the master chose |
| EndToEnd.ReturnFileLoads | src/compssmodule.cpp:1644-1676 | the file of a return value written by the C++ method loads as the projection of the value |
| EndToEnd.FutureArrives | R/RCOMPSs-package.R:806-816 | from one call to the next: the future that a call gave back, passed to another, arrives there as the projection of the value written for it |
| EndToEnd.CallArrives | src/executor/ExecutorCore.cpp:614-660 | the executor calls the function with the formals' names in order and the values the matching rule chose, scalars as they are and the rest as projections, and writes the result where the master's future object points |
| EndToEnd.IntegerCallArrives | src/executor/ExecutorCore.cpp:239-242 | an instance of that theorem, with real decimal text: the function gets the integer it was called with |
| EndToEnd.AllConvert | src/core/TaskDecorator.cpp:152-183 | portable arguments leave no symbol among the values, and every value converts to its type |
| EndToEnd.Submit | R/RCOMPSs-package.R:573-818 | match, prepare, clean, unroll as one method: the block holds the nine fields of every parameter, made from the values the matching rule chose |
| RunContexts.StepKeepsValid | src/kernels/RunContext.cpp:112-276 | every operation that does not free a buffer still pointed to keeps: GPU placement just when stream, handles and info cell are live; each buffer null or live with its recorded size; everything else released once |
| RunContexts.CarefulRunIsValid | src/kernels/RunContext.cpp:112-276 | so does every sequence of such operations |
| RunContexts.RequestYieldsCapacity | src/kernels/RunContext.cpp:183-221 | a request for n > 0 bytes on a GPU context yields a live buffer of at least n bytes |
| RunContexts.RequestWithinCapacity | src/kernels/RunContext.cpp:183-221 | a request that the buffer can meet, or on a CPU context, changes nothing |
| RunContexts.RequestBeyondCapacity | src/kernels/RunContext.cpp:183-221 | a larger one acquires a buffer of just that size, releases the old one, and touches nothing else |
| RunContexts.StepFrame | src/kernels/RunContext.cpp:112-276 | mode, placement and pointers are changed by their own operations only |
| RunContexts.PlacementAcquires | src/kernels/RunContext.cpp:37-138 | stream, handles and info cell are acquired on becoming a GPU context and at no other change |
| RunContexts.ReleasedExactlyOnce | src/kernels/RunContext.cpp:37-100 | over every run from construction to destruction, everything acquired is released exactly once if and only if no buffer was freed while the context pointed to it; otherwise something is released more than once |
| RunContexts.StepKeepsDoomed | src/kernels/RunContext.cpp:255-276 | after such a free no later operation can avoid the second release |
| RunContexts.ClearingRepairsTheFree | src/kernels/RunContext.cpp:255-276 | clearing pointer and size after the free would be enough |
| RunContexts.PlacingOnGpuAgainReleasesTwice | src/kernels/RunContext.cpp:117-121 | a short run that releases a buffer twice |
| RunContexts.RunContext.constructor | src/kernels/RunContext.cpp:37-65 | a new context is valid |
| RunContexts.RunContext.SetOperationPlacement | src/kernels/RunContext.cpp:112-138 | the new state, and that a careful change keeps the context valid |
| RunContexts.RunContext.ClearUp | src/kernels/RunContext.cpp:223-253 | on a GPU context everything held is released; all fields are cleared |
| RunContexts.RunContext.SetRunMode | src/kernels/RunContext.cpp:149-155 | changes the mode and nothing that is owned |
| RunContexts.RunContext.RequestWorkBufferDevice | src/kernels/RunContext.cpp:183-201 | returns the pointer, grows the buffer only when needed, throws on a CPU context |
| RunContexts.RunContext.RequestWorkBufferHost | src/kernels/RunContext.cpp:203-221 | the same for the host buffer |
| RunContexts.RunContext.FreeWorkBufferDevice | src/kernels/RunContext.cpp:255-265 | releases the buffer and changes nothing else |
| RunContexts.RunContext.FreeWorkBufferHost | src/kernels/RunContext.cpp:267-276 | the same for the host buffer |
| RunContexts.RunContext.Destroy | src/kernels/RunContext.cpp:67-100 | a valid context leaves nothing unreleased and releases nothing twice |
| ContextRegistry.RegistrySafety | src/kernels/ContextManager.cpp:18-134 | after every sequence of operations the current context of a live instance was not deleted, distinct names have distinct undeleted contexts, none was deleted twice, and contexts created = mapped + deleted + overwritten + the GPU context |
| ContextRegistry.DestructionLeaksTheOverwritten | src/kernels/ContextManager.cpp:57-76 | after destruction the contexts never deleted are exactly the overwritten ones |
| ContextRegistry.NothingLeaksIff | src/kernels/ContextManager.cpp:103-109 | nothing leaks if and only if no context was created under a name in use |
| ContextRegistry.DefaultCanGo | src/kernels/ContextManager.cpp:111-134 | a run that deletes the default context, after which the current one cannot be deleted |
| ContextRegistry.CreateThenSelect | src/kernels/ContextManager.cpp:78-109 | a new context takes no other name's place, is not current at first, and is once selected |
| ContextRegistry.DeleteFallsBack | src/kernels/ContextManager.cpp:111-134 | deleting the current context, not the default one, makes the default current |
| ContextRegistry.DeleteElsewhere | src/kernels/ContextManager.cpp:111-134 | deleting any other leaves the current one; which deletes throw and which are refused |
| ContextRegistry.GpuIsKept | src/kernels/ContextManager.cpp:136-149 | the GPU context is new once, the same afterwards, and has no name |
| ContextRegistry.RestartIsFresh | src/kernels/ContextManager.cpp:18-76 | after a destruction the next operation starts with one new default context |
| ContextRegistry.ContextManager.GetInstance | src/kernels/ContextManager.cpp:18-26 | a missing instance appears with one context, named default and current |
| ContextRegistry.ContextManager.CreateRunContext | src/kernels/ContextManager.cpp:103-109 | the name maps to a new context, and the one it mapped to is overwritten |
| ContextRegistry.ContextManager.SetOperationContext | src/adapters/RContextManager.cpp:77-82 | selects the named context, or fails and selects nothing |
| ContextRegistry.ContextManager.DeleteRunContext | src/kernels/ContextManager.cpp:111-134 | a delete that throws changes nothing; one that returns removes and deletes just the named context, after falling back to the default if it was current, unless it is the current default |
| ContextRegistry.ContextManager.GetGPUContext | src/kernels/ContextManager.cpp:136-149 | the internal GPU context is created once and then kept |
| ContextRegistry.ContextManager.DestroyInstance | src/kernels/ContextManager.cpp:57-76 | the loop deletes every mapped context and the GPU context, once each |

## Left out

- The COMPSs runtime itself, pipes, processes and file systems; write failures of `ofstream`; clocks and random unique names.
- cuBLAS and cuSOLVER wrappers, CUDA kernels, memory copies, CPU and GPU affinity, logging and tracing.
- The qs and RMVL codecs: only which of them is picked.
- Registration markers and constraint strings: distinct constraints can share a marker by design.
- `predict_linear_regression`, `merge2` in k-means, data generators, argument parsing, the `Comparisons` variants: easy members or duplicates.
- Floating-point rounding, infinities and NaN in the three programs; doubles are eight opaque bytes in the serializer and on the wire.
- R's own limits: the height of the PROTECT stack, memory exhaustion, the extent of an allocation asked for by a hostile length.
- Reader.ReadArray: what `Rf_setAttrib` does with attributes that R itself never leaves on an array and the writer never emits. R takes dims of other atomic types and coerces them, takes an empty dimnames list and drops it, pads a short one, takes an empty element for none, and turns its elements into character vectors; the model rejects dims that are not integers and an empty list, and keeps the rest as it was read.
- A host that is not little-endian: files are written in host order.
- Defaults that are calls, such as `-1` or `c(1, 2)`: they reach the master unevaluated.
- S3 and S4 methods for `class` and `length`.
- KMeans.PartialSumTask: fragments without rows, and fragments with another number of columns than the centres (the source stops on these), are not considered.
- KMeans.KmeansFrag: the branch with `use_merge2` is not modelled.
- KMeans.Distances: squared distances stand for Euclidean ones, which leaves every comparison as it is.
- LeastSquares.FitLinearRegression: with at least one predictor and one response; fragments without rows are not considered.
- KnnTasks.ClassifyAll: k rows in every training fragment, as the search demands, and at least one row in every test fragment.
- Reader.ReadSEXP: an R error inside an allocation or an attribute setter would leave by a long jump; here a rejected attribute is an error value.
- Reader.ReadStringRef: R refuses a string with an embedded NUL byte; here every byte is a character.
- Decorator.Classify: a symbol is looked up once, by a parameter; what R finds under a name may change between the calls.
- Parameters.AsInt: the coercions of `Rcpp::as` between number types are left out; the types that reach it always fit.
- Wire.Build: on a line whose number of arguments is smaller than its returns and target, the source asks R for a list of negative length. That is an R error by long jump, past the handlers that write the reply; the model counts it as an exception.
- EndToEnd.CallArrives: for the C++ codec on the input side; a colon in a path, a space in a name, or a string that is missing or not single-spaced is excluded by its conditions; `StringArrives` says what becomes of such a string.
- RunContexts.Destroyed: no CUDA call fails; after a second release the run is followed as if the call had returned.
- RunContexts.State: stream synchronisation has no effect on ownership and is not modelled.
- ContextRegistry.Removed: deleting a context is counting it; what its destructor releases is the subject of `RunContexts`.
- ContextRegistry.Torn: an operation through a reference kept from a destroyed instance is not considered.
