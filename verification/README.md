# Verified models of telic's harder algorithms

This project models, in Dafny, the numeric, codec and search code of telic's repository that is
hardest to get right, and proves what that code is for. `dafny verify dfyconfig.toml` checks it.

- **Fourier transforms.** The whole path of the words `cfft`, `icfft`, `fft` and `ifft`: planning,
  the tables of sines and cosines, the hard-coded and the generic radix passes, complex and real,
  Bluestein's algorithm, the choice between the two kinds of plan, and the packing of half spectra.
  Complex numbers are pairs of exact reals, so rounding is not
  a subject. The tables are proved from the laws of the circle alone (`SinCos.Circle`): the addition
  law, a quarter turn, unit length, and a first half turn above the axis. The literals in the radix 3 to
  11 passes and in `fill_first_quadrant` stand for the exact values they approximate.
- **PNG.** tigr's writer and loader with the run-length encoder and the complete inflater between
  them, down to single bits, and the map generator's second implementation of the row filters.
- **Hexiom.** The constraint solver of the benchmark: mutable domains, three propagation rules, and
  the backtracking search with all six of its strategies.
- **Classics.** LU factorisation with partial pivoting, the fannkuch permutation machine, the map
  generator's convex hull and line simplification, and tigr's line drawing.

Code that changes things step by step is imperative here too: buffers are arrays, the bit writer
(`BitWriter.Save`), the inflater (`Inflate.State`), the Hexiom domains (`Hexiom.Done`, `Hexiom.Pos`)
and the matrix (`Lu.ArrayList`) are classes. Each method is proved against a specification that does
not mention how it works: the transform by its definition (`Dft.Transform`), the meaning of a DEFLATE
stream (`Blocks.StreamBytes`), the filters row by row (`Filters.UndoRows`), the existence of a
solution (`HexiomBoard.Solvable`), the product of two triangular matrices (`Lu.Product`).

## How the parts fit

| area | modules |
|---|---|
| common to several | Basics, Wrappers, Division |
| transform by definition | Complexes, Sums, Dft, Convolution |
| passes and plans | RadixPass, Butterflies, Passes, Primes, PassG, Factorize, Plans, PassAll |
| tables | SinCos, RealTwiddles |
| other lengths, and the words cfft and icfft | GoodSize, Bluestein, Fourier |
| packed real spectra | RealSpectra, RealStages, RealSymmetry |
| real passes and plans | RealColumns, ForwardColumns, BackwardColumns, RealPasses, RealRows, RealParts, RealPassG, RealPassGBack, RealPlans, RealFft |
| the words fft and ifft | RealFourier |
| bits and codes | Bits, Huffman, Symbols, CopyCodes, Blocks |
| writing and reading PNG | Crc, BitWriter, RunItems, Bitmaps, SavePng, Inflate, Chunks, Filters, Convert, Palette, LoadPng, Png |
| Hexiom | HexiomBoard, HexiomRules, Hexiom, HexiomSearch, HexGrid |
| classics | Lu, Fannkuch, Hull, Simplify, Line |

Arguments that stand for what the model does not compute:

- `turn` is `exp(pi i a)`, of which only the laws of the circle are used (`SinCos.Circle`). Plans take
  their tables from it; `root`, the family of roots `exp(2 pi i / n)`, coherent between lengths
  (`Dft.RootFamily`), is made from it by `SinCos.CircleIsRootFamily`, and says what the tables hold.
- `cost` in `Fourier.MakeCfft` and `RealFourier.MakeRfft` is any function: the choice of plan never changes the result.
- Ghost arguments such as `blocks`, `tail` or `expected` say what a stream spells; the code does not
  see them.

## Where the code and its promises part

- An image of width 0 and height 1 makes tigr's `unfilter` touch one byte past the loader's buffer:
  its first loop runs over the bytes of a pixel even where the row has none.
  `Png.LoopStaysInside` gives the exact condition, which `Png.SaveThenLoad` asks for. For the same
  reason the filters of an image of width 0 change the filter bytes of the rows that follow, and can
  make one unknown (`Filters.EmptyRow`, `Filters.RefusedForNoRow`).
- A stream that is too short for the image is not refused: the rest is loaded as zeros (`LoadPng.Load`).
- The extra bits 31 of length symbol 284, which section 3.2.5 of RFC 1951 leaves without a meaning, are
  read as length 258, which has a symbol of its own (`CopyCodes.UnusedLength`).
- Palette colours and a transparent colour are read without a look at the sizes of their chunks; where
  these are too short, what lies behind them in the file is taken (`LoadPng.Load`).
- A factor list can outgrow its array at the last store of `cfftp_factorize`, which is not checked:
  for the lengths of `Plans.Overruns` and no others, 5 * 3^25 being one (`Plans.OverrunExample`). None
  is below 2 * 3^25, far above the lengths telic passes on.
- For grey images tigr compares the sample with the first byte of the tRNS chunk; section 4.2.9 of
  RFC 2083 puts an 8-bit sample in the second. The model follows the code. `Convert.GreyAgrees` says
  for which samples and which data both mean the same, `Convert.GreyDisagrees` shows a case where they
  do not, and `Convert.ColourAlwaysAgrees` does it for colour images.
- `depalette` does not step over the last byte of a row when its indices do not fill it, so that all
  later rows of such an image come out shifted. `Palette.PaletteAgrees` gives the exact condition: the
  indices are the standard's if and only if rows fill their last byte or there is one row at most.
- tigr's header says that the end pixel of a line is not drawn; it is, if and only if both ends are
  equal (`Line.DrawLine`).
- A single point is not scaled: `pass_all`, `rfftp_forward` and `rfftp_backward` return before they
  look at `fct`.
- radfg wraps its table index at `iang >= ip` and radbg at `iang > ip`. Both read the same entries,
  because `iang` never meets `ip` itself (`PassG.NextIwal`); the model has one loop for both.
- Hexiom's highest-value strategy raises when a cell has no value left, instead of reporting that
  the board is impossible: if and only if the first propagation leaves such a cell
  (`HexiomSearch.SolveStep`), as on every board of fives and sixes (`HexiomSearch.RaisingBoards`). The recursive calls
  never raise.

## Model

| member | source | states |
|---|---|---|
| `Fourier.RoundTrip` | src/c/fourier.c:123-175 | `icfft` undoes `cfft`, and `cfft` undoes `icfft`, on every vector of at least one complex point |
| `Fourier.ThereAndBack` | src/c/fourier.c:155-175 | running `cfft` and then `icfft` returns the input, whichever plan kind is chosen; below 3^24 / 2 points neither run fails |
| `Fourier.ComplexTransform` | src/c/fourier.c:123-153 | `cfft` returns the DFT by its definition and `icfft` the inverse DFT divided by the length, whichever plan is chosen; an empty vector is refused; every length below 3^24 / 2 succeeds |
| `Fourier.MakeCfft` | external/pocketfft/pocketfft.c:2066-2093 | whatever the cost comparison says, the plan is valid for exactly this length; length 0 gets none; every positive length below 3^24 / 2 gets one |
| `Fourier.Execute` | external/pocketfft/pocketfft.c:2104-2118 | either kind of plan leaves `fct` times the DFT in the buffer, forward for sign -1 and backward for sign 1 |
| `Fourier.LargestPrimeFactor` | external/pocketfft/pocketfft.c:205-223 | 1 for 1, otherwise a prime divisor of `n` that no prime divisor of `n` exceeds |
| `PassAll.PassAll` | external/pocketfft/pocketfft.c:871-929 | for every valid plan the buffer ends as `fct` times the DFT of its old contents; a single point is left alone, `fct` or not |
| `PassAll.RunPasses` | external/pocketfft/pocketfft.c:879-908 | after the loop over the factors, with all its buffer swaps, the current buffer is the DFT of the input |
| `PassAll.OnePass` | external/pocketfft/pocketfft.c:883-906 | whichever pass is picked, its result is the abstract radix pass of the current buffer, in the buffer the swaps make current |
| `PassAll.MakePlan` | external/pocketfft/pocketfft.c:1034-1052 | a plan holds a factor list of the length and the twiddle factors every pass needs, read off the table of sines and cosines; length 0 gets none, length 1 no factors, every length below 2 * 3^24 a plan |
| `RadixPass.StageStep` | external/pocketfft/pocketfft.c:881-908 | the invariant of the loop over factors: for every `c < l1`, `q < ido`, finishing the sums `sum_i A[i + ido c] W(l1 i q)` in the buffer gives output `c + l1 q`; one abstract pass moves it on by its factor |
| `RadixPass.StageStart` | external/pocketfft/pocketfft.c:876-879 | before the first pass the invariant is the definition of the DFT |
| `RadixPass.StageEnd` | external/pocketfft/pocketfft.c:909-926 | after the last pass the invariant says the buffer is the DFT |
| `PassG.PassG` | external/pocketfft/pocketfft.c:767-865 | for every prime radix from 5 on, the generic pass, working inside both buffers, is the abstract radix pass |
| `PassG.NextIwal` | external/pocketfft/pocketfft.c:811 | the stepped table index is `j l mod ip` and never 0 or `ip`, because `ip` is prime |
| `PassG.PairRows` | external/pocketfft/pocketfft.c:781-787 | the first loops leave rows of mirror sums and differences of the inputs |
| `PassG.MixRows` | external/pocketfft/pocketfft.c:788-835 | the middle loops leave, for each pair of rows, the even and the odd part of the short transforms, and the plain sums in row 0 |
| `PassG.StartRow` | external/pocketfft/pocketfft.c:798-805 | rows `l` and `lc` start with the contributions of the first two pairs |
| `PassG.AccumulateTwo` | external/pocketfft/pocketfft.c:815-821 | the unrolled step adds two pairs at once to the even and odd part |
| `PassG.Accumulate` | external/pocketfft/pocketfft.c:827-833 | the remaining step adds one pair |
| `PassG.TwistRows` | external/pocketfft/pocketfft.c:838-863 | the last loops recombine the parts into transforms and turn each entry by its own twiddle factor |
| `PassG.Recombine` | external/pocketfft/pocketfft.c:843-856 | the sum and the difference of the mixed rows are the transforms at `j` and at `ip - j` |
| `Passes.OddPass` | external/pocketfft/pocketfft.c:368-761 | the hard-coded passes of radix 3, 5, 7 and 11 (lines 368-430, 545-619, 648-761), for any coefficient orders that fold rightly, are the abstract radix pass, in both directions |
| `Passes.Pass2` | external/pocketfft/pocketfft.c:300-340 | the radix 2 passes are the abstract radix pass |
| `Passes.Pass4` | external/pocketfft/pocketfft.c:432-515 | the radix 4 passes are the abstract radix pass, forward and backward |
| `Butterflies.HardCodedRowsFoldRightly` | external/pocketfft/pocketfft.c:663-758 | in every row of coefficients of the passes 3, 5, 7 and 11, position `m` names the stored cosine and sine of `u m` folded into half a turn, with the right sign |
| `Butterflies.OddButterflyCorrect` | external/pocketfft/pocketfft.c:621-761 | such coefficient orders compute, by mirror pairs, every output of the short transform |
| `Butterflies.OddDft` | external/pocketfft/pocketfft.c:629-638 | a transform of an odd number of points is its even part plus its odd part, over mirror pairs |
| `Butterflies.OddDftMirror` | external/pocketfft/pocketfft.c:629-638 | the mirror output is the even part less the odd part |
| `Butterflies.Butterfly2Correct` | external/pocketfft/pocketfft.c:306-319 | sum and difference are the transform of two points |
| `Butterflies.Butterfly4Correct` | external/pocketfft/pocketfft.c:438-473 | the two stages and the quarter turn are the transform of four points, in the direction of the sign |
| `Plans.FactorizeLength` | external/pocketfft/pocketfft.c:953-983 | it gives up just when the prime factors, the fours joined and a single 2 in front, neither fit the array nor overrun it by one new prime at the last store, which is not checked; otherwise they are the result. It overruns just for the lengths that `Plans.Overruns` names, none below 2 * 3^25; below 2 * 3^24 fewer than 25 factors come out |
| `Plans.OverrunExample` | external/pocketfft/pocketfft.c:977-980 | 5 * 3^25 has 26 factors, and the last is stored behind the array |
| `Factorize.ThreesAndFive` | external/pocketfft/pocketfft.c:968-980 | for every k the planned factors of 5 * 3^k are k threes and a five |
| `Plans.MoveTwoToFront` | external/pocketfft/pocketfft.c:960-967 | the factor 2 comes to the front, every factor stays even, and the product doubles |
| `Plans.OddFactors` | external/pocketfft/pocketfft.c:968-980 | trial division by odd numbers appends exactly the primes of the odd rest, least first, and gives up just when they do not get stored |
| `Factorize.PrimeByTrial` | external/pocketfft/pocketfft.c:968-980 | what is left when no number up to the root divides it is prime |
| `Factorize.LeastDivisorIsPrime` | external/pocketfft/pocketfft.c:969-977 | a divisor without smaller divisors is prime |
| `Factorize.ProductLower` | external/pocketfft/pocketfft.c:957-980 | `k` planned factors multiply to at least 2 * 3^(k - 1) |
| `Plans.TwSize` | external/pocketfft/pocketfft.c:985-997 | the computed size is exactly where the last pass's regions end |
| `Plans.CompTwiddle` | external/pocketfft/pocketfft.c:999-1032 | after filling, every pass finds its own twiddle factors and roots in its own part of the arena, which the regions fill exactly |
| `Plans.FillTwiddles` | external/pocketfft/pocketfft.c:1012-1017 | a region holds `W(l1 i j)` at its index `(i, j)`, and nothing before it changes |
| `Plans.FillRoots` | external/pocketfft/pocketfft.c:1018-1027 | the region of a generic pass holds the powers of its root, and nothing before it changes |
| `Plans.PassTableKept` | external/pocketfft/pocketfft.c:1010-1021 | writing behind a pass's regions leaves its tables alone |
| `Plans.TrigIndex` | external/pocketfft/pocketfft.c:1015 | every read of the table of roots is inside the table |
| `RealTwiddles.TwiddleInHalf` | external/pocketfft/pocketfft.c:1825-1833 | for real plans every twiddle read stays below half a turn, the half that was filled |
| `RealTwiddles.RootInHalf` | external/pocketfft/pocketfft.c:1835-1847 | so does every root read for a generic pass, whose radix is odd |
| `RealTwiddles.FillRealTwiddles` | external/pocketfft/pocketfft.c:1825-1834 | the region of a pass holds `W(l1 j i)` for all its pairs, read out of the filled half; nothing outside it changes |
| `RealTwiddles.FillRealRoots` | external/pocketfft/pocketfft.c:1835-1847 | the region of a generic pass holds all `ip` roots, the upper ones by reflection; nothing outside it changes |
| `SinCos.SinCosTable` | external/pocketfft/pocketfft.c:199-203 | for every length entry `k < n` of the table is (cos, sin) of `2 pi k / n`, from the laws of the circle alone |
| `SinCos.SinCosHalf` | external/pocketfft/pocketfft.c:182-197 | in each of the three residue branches the entries up to half a turn are right |
| `SinCos.CalcFirstOctant` | external/pocketfft/pocketfft.c:62-90 | the first octant by blocks of rotations, and nothing outside it is touched |
| `SinCos.CalcFirstQuadrant` | external/pocketfft/pocketfft.c:92-110 | for lengths 2 mod 4 the first quarter, built from the octant in the other half of the buffer |
| `SinCos.CalcFirstHalf` | external/pocketfft/pocketfft.c:112-137 | for odd lengths the first half, although it is built over the octant it still reads |
| `SinCos.FillFirstQuadrant` | external/pocketfft/pocketfft.c:139-150 | the octant mirrored into the quarter |
| `SinCos.FillFirstHalf` | external/pocketfft/pocketfft.c:152-167 | the quarter turned, or mirrored, into the half |
| `SinCos.FillSecondHalf` | external/pocketfft/pocketfft.c:169-180 | the half turned, or mirrored, into the whole table |
| `SinCos.InOctant` | external/pocketfft/pocketfft.c:64-76 | every argument that calc_first_octant hands to my_sincosm1pi is in [0, 0.25] |
| `SinCos.CircleIsRootFamily` | external/pocketfft/pocketfft.c:1004 | the table is the table of powers of a primitive root the transforms ask for, coherently for all lengths |
| `SinCos.TrigEntries` | external/pocketfft/pocketfft.c:1001-1004 | the table, read in pairs, is the table of powers of the root `exp(2 pi i / n)` |
| `GoodSize.Compute` | external/pocketfft/pocketfft.c:247-260 | the result is the least number not below `n` with no prime factor above 11 |
| `GoodSize.Search` | external/pocketfft/pocketfft.c:252-259 | the nest of pruned loops finds the least candidate, or keeps the bound it was given |
| `GoodSize.SmoothIsGenerated` | external/pocketfft/pocketfft.c:247-260 | every number with no prime factor above 11 is among the products the loops run through |
| `GoodSize.GeneratedIsSmooth` | external/pocketfft/pocketfft.c:247-260 | and they run through no other |
| `Bluestein.BlueFft` | external/pocketfft/pocketfft.c:1944-2008 | Bluestein's path leaves `fct` times the DFT of the original points, for both signs |
| `Bluestein.MakeBlue` | external/pocketfft/pocketfft.c:1889-1935 | the plan holds the chirp and the transform of the wrapped, scaled chirp at the padded length; every length below 3^24 / 2 gets one |
| `Bluestein.SquareStep` | external/pocketfft/pocketfft.c:1910-1911 | adding `2m - 1` and taking off `2n` at most once keeps `coeff` equal to `m^2 mod 2n` |
| `Bluestein.MakeChirp` | external/pocketfft/pocketfft.c:1900-1914 | the loop reads the chirp `W(m^2)` |
| `Bluestein.WrapChirp` | external/pocketfft/pocketfft.c:1916-1926 | the padded buffer holds the scaled chirp, its mirror image and zeros between |
| `Bluestein.ChirpIn` | external/pocketfft/pocketfft.c:1954-1968 | the input times the chirp, conjugated for the forward sign, padded with zeros |
| `Bluestein.Convolve` | external/pocketfft/pocketfft.c:1973-1987 | the pointwise product with the stored transform, conjugated for the backward sign |
| `Bluestein.ChirpOut` | external/pocketfft/pocketfft.c:1993-2005 | each output is multiplied by its chirp value, conjugated for the forward sign |
| `Bluestein.ChirpIdentity` | external/pocketfft/pocketfft.c:1954-2005 | chirp times conjugated chirp of the distance times chirp is the power the DFT asks for |
| `Bluestein.BlueValue` | external/pocketfft/pocketfft.c:1954-2005 | dechirping the circular convolution of the padded sequences gives the DFT, because the padding keeps the ends apart |
| `Convolution.ConvolutionTheorem` | external/pocketfft/pocketfft.c:1970-1990 | multiplying two transforms and transforming back is circular convolution, times the length |
| `Convolution.SymmetricTransform` | external/pocketfft/pocketfft.c:1973-1987 | conjugating a symmetric sequence conjugates its transform, so one stored transform serves both signs |
| `Dft.Inversion` | external/pocketfft/pocketfft.c:945-951 | transforming back against the same root gives the input times its length |
| `RealFourier.FftThenIfft` | src/c/fourier.c:29-121 | running `fft` and then `ifft` with the signal's length returns the signal, for every signal of 1 to 2^31 - 1 samples, whichever plan kind is chosen; any other is refused |
| `RealFourier.IfftThenFft` | src/c/fourier.c:29-121 | running `ifft` and then `fft` returns the spectrum but for the imaginary parts of bin 0 and bin n/2, which are cleared; it runs just when the three tests of `ifft` pass |
| `RealFourier.Fft` | src/c/fourier.c:29-76 | the bins are the DFT of the signal by its definition at frequencies 0 to n/2; an empty signal is refused |
| `RealFourier.Ifft` | src/c/fourier.c:78-121 | the result is the inverse DFT, divided by n, of the symmetric spectrum the bins stand for, and it is real; refused just when there are no bins, the length is not a whole number from 1 to INT_MAX, or the number of bins is not n/2 + 1 |
| `RealFourier.SignalReturns` | src/c/fourier.c:78-121 | a real signal is the only one whose values `ifft` may give for its bins |
| `RealFourier.SpectrumReturns` | src/c/fourier.c:29-76 | the bins of a signal made from bins are those bins, made real at 0 and n/2 |
| `RealFourier.HalfIsEnough` | src/c/fourier.c:60-68 | the mirror image of the bins of a real signal completes its whole spectrum |
| `RealFourier.UnpackBins` | src/c/fourier.c:60-67 | the packed spectrum row by row: bin 0 real, the last bin real when the length is even |
| `RealFourier.PackBins` | src/c/fourier.c:94-103 | the packed spectrum of the rows, without the imaginary parts it has no room for |
| `RealFourier.PositiveLength` | src/c/fourier.c:15-27 | a length is taken just when it is a whole number from 1 to INT_MAX |
| `RealFourier.MakeRfft` | external/pocketfft/pocketfft.c:2126-2153 | whatever the cost comparison says, the plan is valid for exactly this length; every positive length below 3^24 / 2 gets one |
| `RealFourier.RfftForward` | external/pocketfft/pocketfft.c:2184-2190 | either kind of plan leaves, in packed form, `fct` times the DFT of the real buffer |
| `RealFourier.RfftBackward` | external/pocketfft/pocketfft.c:2176-2182 | either kind of plan leaves `fct` times the transform of the packed spectrum, which is real |
| `RealFourier.RfftBlueForward` | external/pocketfft/pocketfft.c:2041-2058 | Bluestein's transform of the values, of which the lower half is kept, holds the whole spectrum |
| `RealFourier.RfftBlueBackward` | external/pocketfft/pocketfft.c:2018-2039 | the spectrum is unfolded, transformed and its real parts are all there is |
| `RealFourier.RealSpectrum` | external/pocketfft/pocketfft.c:2041-2058 | opposite frequencies of a real signal are conjugate |
| `RealFourier.RealSignal` | external/pocketfft/pocketfft.c:2035-2036 | the transform of a packed spectrum has no imaginary part, so dropping it loses nothing |
| `RealFft.RfftpForward` | external/pocketfft/pocketfft.c:1700-1734 | for every valid plan the buffer ends as the packed form of `fct` times the DFT; a single value is left alone |
| `RealFft.RfftpBackward` | external/pocketfft/pocketfft.c:1736-1766 | for every valid plan the buffer ends as `fct` times the transform of the packed spectrum; a single value is left alone |
| `RealFft.RunForward` | external/pocketfft/pocketfft.c:1710-1730 | after the loop from the last factor to the first, with its buffer swaps, the current buffer holds the DFT of the input |
| `RealFft.RunBackward` | external/pocketfft/pocketfft.c:1746-1762 | after the loop over the factors the current buffer holds the transform of the packed spectrum |
| `RealFft.OneForward` | external/pocketfft/pocketfft.c:1712-1729 | whichever pass is picked, its result is the abstract forward pass, in the buffer the swaps make current |
| `RealFft.OneBackward` | external/pocketfft/pocketfft.c:1748-1761 | whichever pass is picked, its result in the other buffer is the abstract backward pass |
| `RealFft.CopyAndNorm` | external/pocketfft/pocketfft.c:1684-1698 | in each of the four cases the result is `fct` times the values of the last buffer |
| `RealStages.ForwardStep` | external/pocketfft/pocketfft.c:1710-1730 | the invariant of the forward loop: block `b` of `l1` holds the packed spectrum of every `l1`-th value from `b` on; a pass merges `ip` of them into one |
| `RealStages.ForwardStart` | external/pocketfft/pocketfft.c:1704-1708 | single values are their own spectra |
| `RealStages.ForwardEnd` | external/pocketfft/pocketfft.c:1731 | the one block left is the DFT of the input |
| `RealStages.BackwardStep` | external/pocketfft/pocketfft.c:1746-1763 | the invariant of the backward loop: block `b` holds the frequencies turned back by `b` and summed by remainder; a pass splits each block into `ip` |
| `RealStages.BackwardStart` | external/pocketfft/pocketfft.c:1740-1744 | the whole packed spectrum is one block |
| `RealStages.BackwardEnd` | external/pocketfft/pocketfft.c:1763 | blocks of one value are the transform of the spectrum, which is real |
| `RealSpectra.StoreBin` | external/pocketfft/pocketfft.c:1344-1371 | a frequency goes to its two slots, or, conjugated, to those of the frequency it mirrors; nothing else changes |
| `RealSpectra.BlockStoredBins` | external/pocketfft/pocketfft.c:1344-1371 | after a store the frequency reads back, and only its mirror image changed with it |
| `RealSymmetry.ForwardMirror` | external/pocketfft/pocketfft.c:1348-1371 | in every merged block opposite frequencies are conjugate |
| `RealSymmetry.BackwardMirror` | external/pocketfft/pocketfft.c:1556-1583 | in every split block opposite frequencies are conjugate |
| `RealSymmetry.CanonApart` | external/pocketfft/pocketfft.c:1082-1228 | no two of the frequencies that a forward pass stores share their slots |
| `RealSymmetry.ForwardFromCanon` | external/pocketfft/pocketfft.c:1082-1228 | storing them makes every frequency of the block right |
| `RealSymmetry.BackwardFromLower` | external/pocketfft/pocketfft.c:1382-1538 | so do the lower frequencies of a backward pass |
| `RealPasses.RadF2` | external/pocketfft/pocketfft.c:1082-1105 | radf2 is the abstract forward pass, for odd and even inner length |
| `RealPasses.RadF4` | external/pocketfft/pocketfft.c:1141-1180 | radf4, its `hsqt2` branch included, is the abstract forward pass, for odd and even inner length, when `hsqt2` is both parts of an eighth of a turn |
| `RealPasses.RadFOdd` | external/pocketfft/pocketfft.c:1107-1228 | radf3 and radf5 (lines 1107-1139 and 1182-1228) are the abstract forward pass, their literals being the parts of the column's root and of its square |
| `RealPasses.RadB2` | external/pocketfft/pocketfft.c:1382-1405 | radb2 is the abstract backward pass, for odd and even inner length |
| `RealPasses.RadB4` | external/pocketfft/pocketfft.c:1442-1486 | radb4, its `sqrt2` branch included, is the abstract backward pass, for odd and even inner length |
| `RealPasses.RadBOdd` | external/pocketfft/pocketfft.c:1407-1538 | radb3 and radb5 (lines 1407-1440 and 1488-1538) are the abstract backward pass, with the literals of radf3 and radf5 |
| `ForwardColumns.StoreColumn` | external/pocketfft/pocketfft.c:1082-1228 | for each of the four radices and each of the three kinds of frequency, the assignments of the loop body store, in their places, the short transform of the turned inputs, and no other place changes |
| `ForwardColumns.ZeroF2` | external/pocketfft/pocketfft.c:1087-1088 | radf2's first loop body stores both outputs at the zero frequency |
| `ForwardColumns.MiddleF2` | external/pocketfft/pocketfft.c:1089-1094 | its second, for even inner length, stores the output at the middle frequency, turned by a quarter |
| `ForwardColumns.PairF2` | external/pocketfft/pocketfft.c:1096-1104 | its third stores both outputs at a pair of frequencies, the upper one mirrored |
| `ForwardColumns.ZeroF3` | external/pocketfft/pocketfft.c:1113-1119 | radf3's first loop body, with `taur` and `taui`, stores the outputs at the zero frequency |
| `ForwardColumns.PairF3` | external/pocketfft/pocketfft.c:1121-1138 | its second stores all three outputs at a pair of frequencies |
| `ForwardColumns.ZeroF4` | external/pocketfft/pocketfft.c:1147-1153 | radf4's first loop body stores the outputs at the zero frequency |
| `ForwardColumns.MiddleF4` | external/pocketfft/pocketfft.c:1154-1161 | its second, with `hsqt2`, stores the outputs at the middle frequency, their inputs turned by eighths |
| `ForwardColumns.PairF4` | external/pocketfft/pocketfft.c:1163-1179 | its third stores all four outputs at a pair of frequencies |
| `ForwardColumns.ZeroF5` | external/pocketfft/pocketfft.c:1189-1199 | radf5's first loop body, with `tr11`, `ti11`, `tr12` and `ti12`, stores the outputs at the zero frequency |
| `ForwardColumns.PairF5` | external/pocketfft/pocketfft.c:1201-1227 | its second stores all five outputs at a pair of frequencies |
| `ForwardColumns.ForwardFive` | external/pocketfft/pocketfft.c:1211-1226 | sums, differences and the four literals, in the order radf5 combines them, give the five outputs of the short transform against the column's root |
| `BackwardColumns.StoreParts` | external/pocketfft/pocketfft.c:1382-1538 | the same for the loop bodies of the backward passes: the short transform of the frequencies, each output turned by its factor |
| `BackwardColumns.ZeroB2` | external/pocketfft/pocketfft.c:1387-1388 | radb2's first loop body stores both outputs at the zero frequency |
| `BackwardColumns.MiddleB2` | external/pocketfft/pocketfft.c:1389-1394 | its second stores both at the middle frequency, the second turned by a quarter |
| `BackwardColumns.PairB2` | external/pocketfft/pocketfft.c:1396-1404 | its third stores both at a pair of frequencies, the second turned by its factor |
| `BackwardColumns.ZeroB3` | external/pocketfft/pocketfft.c:1413-1420 | radb3's first loop body stores the outputs at the zero frequency |
| `BackwardColumns.PairB3` | external/pocketfft/pocketfft.c:1422-1439 | its second stores all three at a pair of frequencies, turned by their factors |
| `BackwardColumns.ZeroB4` | external/pocketfft/pocketfft.c:1448-1456 | radb4's first loop body stores the outputs at the zero frequency |
| `BackwardColumns.MiddleB4` | external/pocketfft/pocketfft.c:1457-1467 | its second, with `sqrt2`, stores the outputs at the middle frequency, turned by eighths |
| `BackwardColumns.PairB4` | external/pocketfft/pocketfft.c:1469-1485 | its third stores all four at a pair of frequencies, turned by their factors |
| `BackwardColumns.ZeroB5` | external/pocketfft/pocketfft.c:1495-1508 | radb5's first loop body stores the outputs at the zero frequency |
| `BackwardColumns.PairB5` | external/pocketfft/pocketfft.c:1510-1537 | its second stores all five at a pair of frequencies, turned by their factors |
| `BackwardColumns.BackwardFive` | external/pocketfft/pocketfft.c:1513-1532 | sums, differences and the four literals, in the order radb5 combines them, give the five outputs of the short transform |
| `BackwardColumns.BinsAtPair` | external/pocketfft/pocketfft.c:1396-1537 | the cells the third loops read are the frequencies of a column, the upper ones as mirror images |
| `RealColumns.LowPair` | external/pocketfft/pocketfft.c:1079-1080 | the two cells of a frequency below the middle of its block are the ones the macros name, for reading and for writing |
| `RealColumns.HighPair` | external/pocketfft/pocketfft.c:1079-1080 | so are those of the mirror image of a frequency above it, at `ic`, with the imaginary part negated |
| `RealColumns.MiddlePair` | external/pocketfft/pocketfft.c:1154-1161 | the middle frequencies lie in the last cell of one row and the first of the next |
| `RealColumns.LiteralsOfRadix3` | external/pocketfft/pocketfft.c:1111 | the literals of radix 3: `taur` is -1/2, and `taui` is the positive root of 3/4 |
| `RealColumns.LiteralsOfRadix5` | external/pocketfft/pocketfft.c:1186-1187 | those of radix 5: `tr11` is the positive root of 4 c c + 2 c = 1 and `tr12` the other one, and `ti11` and `ti12` are the positive sines that go with them |
| `RealColumns.LiteralOfRadix4` | external/pocketfft/pocketfft.c:1145 | the literal of radix 4: half of a quarter turn has equal parts, the positive root of 1/2 |
| `RealPassG.RadFG` | external/pocketfft/pocketfft.c:1237-1372 | for every prime radix from 5 on and odd inner length, radfg, working inside both buffers, is the abstract forward pass, with its result back in `cc` |
| `RealPassG.PairInputs` | external/pocketfft/pocketfft.c:1245-1280 | the first loops leave, in place, rows of mirror sums of the turned inputs and of their differences turned back a quarter |
| `RealPassG.MixInputs` | external/pocketfft/pocketfft.c:1285-1339 | the middle loops leave the parts of the even and odd halves of the short transforms, and the plain sums in row 0 |
| `RealPassG.StoreZeros` | external/pocketfft/pocketfft.c:1348-1356 | the zero frequencies of rows `j` and `ip - j` are the two parts of frequency `ido j` of the merged block |
| `RealPassG.StorePairs` | external/pocketfft/pocketfft.c:1360-1371 | sum and difference of the mixed cells are the merged frequencies `q + ido j` and `q + ido (ip - j)`, the latter stored by its mirror image |
| `RealPassGBack.RadBG` | external/pocketfft/pocketfft.c:1548-1673 | for every prime radix from 5 on and odd inner length, radbg is the abstract backward pass, with its result in `ch` |
| `RealPassGBack.SplitInputs` | external/pocketfft/pocketfft.c:1556-1583 | the first loops leave rows of sums and differences of facing frequencies |
| `RealPassGBack.MixSplit` | external/pocketfft/pocketfft.c:1584-1636 | the middle loops leave the even halves and the odd halves turned back in `cc`, and the plain sums in row 0 of `ch` |
| `RealPassGBack.Recombine3` | external/pocketfft/pocketfft.c:1637-1654 | the recombined cells are the parts of the short transforms of the frequencies |
| `RealPassGBack.TurnRows` | external/pocketfft/pocketfft.c:1658-1672 | every frequency but the zeroth of every row but the first is turned by its factor |
| `RealRows.MixRealRows` | external/pocketfft/pocketfft.c:1285-1334 | the loops over row pairs, four, two and one pair of inputs at a time, give each cell its cosine-weighted and sine-weighted sums |
| `RealRows.SumRows` | external/pocketfft/pocketfft.c:1335-1339 | row 0 becomes the plain sums, and no other row changes |
| `RealRows.SumRowsInPlace` | external/pocketfft/pocketfft.c:1634-1636 | the same inside one buffer |
| `RealParts.OddMixForward` | external/pocketfft/pocketfft.c:1261-1266 | mixing differences that are held turned back gives the odd part itself |
| `RealParts.OddMixBackward` | external/pocketfft/pocketfft.c:1634-1654 | mixing plain differences gives the odd part turned back |
| `RealPlans.MakeRealPlan` | external/pocketfft/pocketfft.c:1854-1872 | a plan holds a factor list of the length, even factors first, and the factors and roots every pass needs; length 0 gets none, every length below 2 * 3^24 a plan |
| `RealPlans.CompRealTwiddle` | external/pocketfft/pocketfft.c:1814-1852 | every pass finds its own factors and roots in its own part of the arena, which the regions fill exactly |
| `RealPlans.FillRealPass` | external/pocketfft/pocketfft.c:1823-1849 | the regions of one pass hold its tables, and nothing before them changes; the last pass needs no factors |
| `RealPlans.RealTwSize` | external/pocketfft/pocketfft.c:1800-1812 | the computed size is exactly where the last pass's regions end |
| `RealPlans.RealPassTableKept` | external/pocketfft/pocketfft.c:1823-1849 | writing behind a pass's regions leaves its tables alone |
| `Png.SaveThenLoad` | external/tigr/tigr.c:1120-1150 | loading the bytes that saving wrote, check values included, gives the same width, height and pixels, for every bitmap with at least one row other than the 0 x 1 one |
| `Png.LoopStaysInside` | external/tigr/tigr.c:710-733 | for every row of a saved file, one past the last byte its loop touches, as `Filters.UnfilterRow` and `Filters.EmptyRow` report it, lies inside the loader's buffer just when the image has a column, or more than one row: for 0 x 1 it runs past the end |
| `SavePng.SaveImage` | external/tigr/tigr.c:1120-1150 | the file is the signature, the header chunk, one data chunk with its size patched in and the end chunk, with the CRC-32 of type and data behind each, as the complement of a remainder of the division with the first 32 bits turned over; the data is a zlib stream of the filtered rows with the Adler-32 of section 8.2 of RFC 1950 in closed form |
| `SavePng.SaveData` | external/tigr/tigr.c:1090-1118 | type, zlib stream and CRC-32 follow a zero size; the size returned is that of the stream |
| `SavePng.SaveZlib` | external/tigr/tigr.c:1094-1114 | header, one fixed-code block of runs that unfold to the filtered rows and end only at another byte or at 115, fewer than eight zero bits, and the checksum of the rows |
| `SavePng.EncodeRows` | external/tigr/tigr.c:1097-1109 | the bytes encoded are the rows behind filter byte 1, each byte less the one a pixel before (section 6.3 of RFC 2083) |
| `SavePng.FlushBits` | external/tigr/tigr.c:1112-1113 | fewer than eight zero bits are added and no bit is left waiting |
| `SavePng.SaveHeader` | external/tigr/tigr.c:1077-1088 | the signature and the header chunk of an 8-bit RGBA image with its CRC-32, section 4.1.1 of RFC 2083 |
| `SavePng.PutCheck` | external/tigr/tigr.c:990-995 | the complement of the register is the CRC-32 of all that was sent from the type on |
| `Crc.PutDivides` | external/tigr/tigr.c:977-981 | the two looks into the table divide a byte, bit by bit, by the polynomial of section 3.4 of RFC 2083 |
| `Crc.NibbleStep` | external/tigr/tigr.c:979-980 | four steps of the division of any register are one shift and one entry of the table |
| `Crc.TableIsDivision` | external/tigr/tigr.c:973-975 | each of the sixteen entries is its index after four steps |
| `Crc.StartTurnsOver` | external/tigr/tigr.c:1014-1020 | for all data of four bytes or more, a register that starts with ones, and with nothing else, ends as one that starts with zero and meets the first 32 bits turned over |
| `Crc.CheckValue` | external/tigr/tigr.c:1014-1020 | the complement of the register that begin starts is the CRC-32, whose definition names no start value |
| `BitWriter.Save.PutBits` | external/tigr/tigr.c:997-1007 | the bits written so far, those waiting in the accumulator included, grow by the number's bits lowest first |
| `BitWriter.Save.PutBitsReversed` | external/tigr/tigr.c:1009-1012 | they grow by the number's bits highest first |
| `BitWriter.Save.PutBit` | external/tigr/tigr.c:999-1005 | they grow by one bit, the sentinel telling when a byte is full |
| `BitWriter.Save.Literal` | external/tigr/tigr.c:1023-1034 | they grow by the symbol's fixed code |
| `BitWriter.Save.EncodeLen` | external/tigr/tigr.c:1036-1040 | they grow by length symbol, extra bits and distance 1 |
| `BitWriter.Save.EndRun` | external/tigr/tigr.c:1042-1059 | they grow by the code of the current run, for runs of 1 to 115 bytes |
| `BitWriter.Save.EncodeByte` | external/tigr/tigr.c:1061-1075 | the finished runs and the current one unfold to the bytes given so far, and the bit stream is the code of the finished ones |
| `BitWriter.Save.UpdateAdler` | external/tigr/tigr.c:983-988 | the packed sums stay those of the bytes so far, section 8.2 of RFC 1950 |
| `BitWriter.AdlerClosed` | external/tigr/tigr.c:983-988 | for all data the two sums are 1 plus the sum of the bytes and `n` plus the sum of `(n - i) d[i]`, modulo 65521 |
| `BitWriter.PushBit` | external/tigr/tigr.c:1000-1005 | a bit shifted into an accumulator that is not full joins the waiting ones at the end |
| `RunItems.FixedCodeIsCanonical` | external/tigr/tigr.c:1023-1034 | the four ranges of `literal` are the canonical codes of the fixed lengths of section 3.2.6 of RFC 1951 |
| `RunItems.RunsAreItems` | external/tigr/tigr.c:1042-1059 | the writer's bits for any runs are the code of DEFLATE items, and the items mean the runs |
| `RunItems.RunsCodeSize` | external/tigr/tigr.c:1115-1145 | no byte costs more than nine bits, so the payload size fits its four bytes |
| `Inflate.TigrInflate` | external/tigr/tigr.c:1361-1400 | for every well-formed stream of stored, fixed and dynamic blocks (section 3.2 of RFC 1951) 1 is returned just when the bytes it stands for fit in the output; they are then at its front, and what lies behind them is as it was; at most two bytes past the input are read, and no byte outside the output is written |
| `Inflate.State.constructor` | external/tigr/tigr.c:1363-1372 | the reader starts with no bits looked ahead, nothing produced, and all of the input and two bytes more ahead |
| `Inflate.State.Bits` | external/tigr/tigr.c:1199-1209 | takes the next `n` bits of the stream; it fails just where fewer than sixteen are left to look ahead |
| `Inflate.State.CopyWithin` | external/tigr/tigr.c:1211-1221 | a copy out of the output, also one that runs into itself, repeats byte by byte; it fails just when the output is full |
| `Inflate.Build` | external/tigr/tigr.c:1223-1248 | under the Kraft inequality the table holds, slot by slot, left-justified canonical codes (section 3.2.2 of RFC 1951) with symbol and length, and the number of symbols that have codes is returned |
| `Inflate.KeyAsStored` | external/tigr/tigr.c:1242-1243 | shifted code, symbol and length do not overlap in the 32-bit key and nothing is shifted out |
| `Inflate.State.Decode` | external/tigr/tigr.c:1250-1268 | whenever the stream starts with a symbol's code, that symbol is returned and exactly its length is consumed |
| `Inflate.State.FindKey` | external/tigr/tigr.c:1251-1264 | the binary search and the check find the key of the symbol whose code comes next |
| `Inflate.State.RunItem` | external/tigr/tigr.c:1270-1275 | a length and distance pair is read and carried out, unless the output is too short for it |
| `Inflate.State.Block` | external/tigr/tigr.c:1277-1287 | items up to the end-of-block symbol are applied in order, just when the output has room for all of them |
| `Inflate.State.Stored` | external/tigr/tigr.c:1289-1300 | skips to the byte boundary, checks the complement, copies past the look-ahead and goes on right behind |
| `Inflate.State.Fixed` | external/tigr/tigr.c:1302-1320 | both tables are those of the fixed code lengths |
| `Inflate.State.Dynamic` | external/tigr/tigr.c:1322-1359 | both tables are those of the code lengths the block's header spells |
| `Inflate.State.ReadLengths` | external/tigr/tigr.c:1334-1354 | the code lengths, with repetitions and runs of zeros that may cross from one table into the other |
| `Inflate.State.ReadLenLens` | external/tigr/tigr.c:1328-1329 | the code-length code's own lengths, in their peculiar order, missing ones zero |
| `CopyCodes.DistanceCode` | external/tigr/tigr.c:1180-1185 | exactly the distances from 1 to 32768 have a symbol and extra bits, and only one of each |
| `CopyCodes.DistancesMonotone` | external/tigr/tigr.c:1180-1185 | a smaller distance never has a larger symbol |
| `CopyCodes.DistBitsAre` | external/tigr/tigr.c:1180-1181 | symbols 0 and 1 take no extra bits, symbol `k` takes `k / 2 - 1` |
| `CopyCodes.DistancesFollow` | external/tigr/tigr.c:1182-1185 | the distances of a symbol begin where those of the one before it end |
| `CopyCodes.LengthCode` | external/tigr/tigr.c:1176-1179 | exactly the lengths from 3 to 258 have a symbol and extra bits, and only one of each, where the standard has a meaning |
| `CopyCodes.LengthsMonotone` | external/tigr/tigr.c:1176-1179 | a smaller length never has a larger symbol |
| `CopyCodes.LastLength` | external/tigr/tigr.c:1176-1179 | length 258 belongs to symbol 285 alone |
| `CopyCodes.LenBitsAre` | external/tigr/tigr.c:1176-1177 | the first four symbols and the last take no extra bits, symbol `257 + k` takes `k / 4 - 1` |
| `CopyCodes.LengthsFollow` | external/tigr/tigr.c:1178-1179 | the lengths of a symbol begin where those of the one before it end |
| `CopyCodes.UnusedLength` | external/tigr/tigr.c:1176-1179 | the extra bits that the standard leaves out are read as length 258 too |
| `CopyCodes.CopyItem` | external/tigr/tigr.c:1270-1275 | every copy within reach, of any distance and length there is, is what some item means |
| `CopyCodes.CopiedByte` | external/tigr/tigr.c:1216-1221 | each byte a copy adds is the one its distance before it |
| `Blocks.OrderIsOutward` | external/tigr/tigr.c:1175 | the code-length lengths come as 16, 17, 18, 0, 8, and then outward from 8 |
| `Blocks.RunLengths` | external/tigr/tigr.c:1337-1348 | a repetition is of 3 to 6 lengths, runs of zeros are of 3 to 10 and of 11 to 138, and of no others |
| `Blocks.RunValues` | external/tigr/tigr.c:1337-1352 | what is added is the length itself, the last one again, or zero |
| `Huffman.TreeSorted` | external/tigr/tigr.c:1238-1245 | the keys increase strictly along the slots |
| `Huffman.KeysOrdered` | external/tigr/tigr.c:1231-1243 | all extensions of an earlier slot's code come before a later slot's code |
| `Huffman.CodesFit` | external/tigr/tigr.c:1231-1236 | under the Kraft inequality the codes of every length fit their length |
| `Huffman.SlotInjective` | external/tigr/tigr.c:1242 | symbols with codes get slots of their own |
| `Huffman.SymbolOfSlot` | external/tigr/tigr.c:1234-1242 | every slot below the total belongs to a symbol |
| `Symbols.ReverseTableIsReversal` | external/tigr/tigr.c:1187-1193 | the nested table reverses the eight bits of every byte |
| `Symbols.Rev16IsReversal` | external/tigr/tigr.c:1195-1197 | rev16 reads the low sixteen bits highest first |
| `Symbols.Search` | external/tigr/tigr.c:1252-1260 | the binary search counts the keys that do not exceed the sought word |
| `Symbols.SearchFinds` | external/tigr/tigr.c:1250-1263 | for a stream that begins with a symbol's code the search ends just behind that symbol's slot |
| `Symbols.FoundKeyMatches` | external/tigr/tigr.c:1264 | the check on the found key holds then |
| `Blocks.FixedFirstCodes` | external/tigr/tigr.c:1302-1320 | the first codes of the fixed lengths are those of section 3.2.6 of RFC 1951 |
| `LoadPng.Load` | external/tigr/tigr.c:837-941 | for files of whole chunks a bitmap is returned just when signature, header, data and zlib header are in order, the stream is not longer than the image, no filter is unknown and the colours are complete (a palette for type 3, else whole bytes per pixel), and then it is the image the chunks stand for, with zeros where the stream is too short |
| `LoadPng.ReadChunks` | external/tigr/tigr.c:845-908 | the checks before inflating, and the header, joined data, palette and transparency they yield |
| `LoadPng.CheckZlib` | external/tigr/tigr.c:905-908 | the test of the two zlib bytes is that of section 2.2 of RFC 1950, bit by bit |
| `LoadPng.PixelBits` | external/tigr/tigr.c:853-871 | the switch gives the depth times the samples of the colour type |
| `LoadPng.PieceIsChunk` | external/tigr/tigr.c:894-903 | the pointers lead to the data of the first palette and the first transparency chunk, and the size to its end |
| `LoadPng.ImageAsRgba` | external/tigr/tigr.c:738-775 | images of grey, of grey and alpha, and of colour have the pixels of the RGBA image whose unfiltered rows hold `[g, g, g, 255]`, `[g, g, g, a]` and `[r, g, b, 255]` for each of theirs |
| `LoadPng.PixelsWide` | external/tigr/tigr.c:738-775 | the same for any rows of one to four bytes a pixel |
| `LoadPng.DecodeImage` | external/tigr/tigr.c:910-923 | inflating to the end of the zeroed buffer, unfiltering there and converting, or looking up the palette, to the front gives the pixels by definition; it fails just on a stream too long for the image, an unknown filter or incomplete colours |
| `LoadPng.RoomAtStart` | external/tigr/tigr.c:833-835 | the place the loader gives the raw rows leaves room for every pixel's four bytes |
| `Palette.Depalette` | external/tigr/tigr.c:777-822 | looking up in place, from packed rows at the end of the buffer, gives every pixel its palette colour and its transparency |
| `Palette.NotOverwritten` | external/tigr/tigr.c:910-916 | the byte of a pixel still to be looked up is never below the place its pixel is written to |
| `Palette.ReadIndex` | external/tigr/tigr.c:786-812 | mask and shift take the index of a column out of its byte |
| `Palette.IndexIsBits` | external/tigr/tigr.c:811-812 | the indices lie in a byte one after another, from its highest bit on |
| `Palette.ColourIsPixel` | external/tigr/tigr.c:817-821 | a palette entry is a colour pixel, with the alpha the transparency data has for its index, as far as it reaches |
| `Palette.PaletteAgrees` | external/tigr/tigr.c:803-821 | the indices depalette reads are those of sections 2.2 and 2.3 of RFC 2083, for all rows of an image's size, if and only if a row fills its last byte or there is one row at most |
| `LoadPng.PaletteImageByStandard` | external/tigr/tigr.c:803-821 | for such sizes every pixel has the colour the standard gives it |
| `Chunks.Find` | external/tigr/tigr.c:680-691 | the first chunk of the type that is large enough, and the position behind it |
| `Chunks.Get32Back` | external/tigr/tigr.c:676-678 | reading the four bytes that put32 wrote gives the number |
| `Chunks.NamesInLetters` | external/tigr/tigr.c:845-905 | signature and chunk names are those of sections 3.1 and 4.1 of RFC 2083, in letters |
| `Chunks.JoinData` | external/tigr/tigr.c:883-892 | the data of all IDAT chunks in order, if there are any |
| `Chunks.JoinDataPlainly` | tools/gen-norway-terrain.py:75-80 | the map generator's walk over all chunks joins the same bytes |
| `Filters.Unfilter` | external/tigr/tigr.c:704-736 | in place, the rows become those of sections 6.2 to 6.6 of RFC 2083 computed row by row; it fails just on an unknown filter; nothing outside the rows changes; an image of width zero becomes what `Filters.EmptyRows` says |
| `Filters.UnfilterRow` | external/tigr/tigr.c:718-731 | one row by its filter, given the row above it; it reports how far its loop reaches |
| `Filters.EmptyRow` | external/tigr/tigr.c:711-731 | a row of an image of width zero: the first loop runs on over the bytes of a pixel, so that each of the next filter bytes gets the one before it added, or half of it; the row above the first changes nothing; it reports how far the loop reaches |
| `Filters.UnfilterEmptyRows` | external/tigr/tigr.c:710-735 | row after row of such an image, up to the first filter unknown by then |
| `Filters.PlainEmptyRows` | external/tigr/tigr.c:719-722 | rows without a filter or with Sub leave such an image as it is |
| `Filters.RefusedForNoRow` | external/tigr/tigr.c:714-731 | an image of width zero is refused though each of its filters is known |
| `Filters.LoopOverRow` | external/tigr/tigr.c:712-717 | the macro's two loops compute the filter with zeros to the left of the row |
| `Filters.PaethIsNearest` | external/tigr/tigr.c:693-697 | the predictor is the neighbour nearest to `a + b - c`, ties going to left, then up (section 6.6 of RFC 2083) |
| `Filters.PngRows` | tools/gen-norway-terrain.py:82-103 | the map generator's rows are the rows with their filters undone; an unknown filter leaves its row alone |
| `Filters.RestoreLine` | tools/gen-norway-terrain.py:87-101 | one line in place is the row by its filter |
| `Filters.PredictorsAgree` | tools/gen-norway-terrain.py:98-100 | the minimum of a tuple picks the same neighbour as `paeth` |
| `Filters.UnfiltersAgree` | tools/gen-norway-terrain.py:82-103 | on every input whose rows have a byte tigr's buffer is the map generator's rows behind the filter bytes |
| `Convert.ConvertRows` | external/tigr/tigr.c:738-775 | expanding in place equals converting out of place, for 1 to 4 bytes per pixel with or without a transparent colour |
| `Convert.ConvertPixel` | external/tigr/tigr.c:742-772 | one pixel is written over bytes that are read already, or its own |
| `Convert.ReadPixel` | external/tigr/tigr.c:743-774 | the switch over the bytes of a pixel |
| `Convert.ScanWide` | external/tigr/tigr.c:738-775 | without a transparent colour, pixels of one to three bytes are those of four bytes in the widened rows |
| `Convert.WideUnfiltered` | external/tigr/tigr.c:714-716 | the widened rows have no filters, and undoing them leaves them alone |
| `Convert.GreyAgrees` | external/tigr/tigr.c:744-753 | for any samples and any tRNS data of two or more bytes, the loader's grey pixels are those of section 4.2.9 of RFC 2083 if and only if both bytes are zero, or no sample equals the first byte, nor the second when the first is zero |
| `Convert.GreyAlwaysAgrees` | external/tigr/tigr.c:744-753 | they are on every sample there is if and only if both bytes are zero |
| `Convert.GreyDisagrees` | external/tigr/tigr.c:744-753 | with the data [0, 5] sample 0 comes out transparent and sample 5 does not |
| `Convert.ColourAlwaysAgrees` | external/tigr/tigr.c:757-768 | for colour pixels they are on every colour if and only if the three high bytes are zero |
| `Png.RowsUndone` | external/tigr/tigr.c:1097-1109 | undoing the Sub filter of all saved rows gives the plain rows |
| `Png.RowsScanned` | external/tigr/tigr.c:769-771 | scanning the plain rows gives the bitmap's pixels |
| `Png.SavedStream` | external/tigr/tigr.c:1096-1114 | what was saved is a well-formed stream of one fixed block that stands for the filtered rows |
| `HexiomSearch.Solve` | bench/pyperformance/pyperf_hexiom.py:467-469 | refused just when the tiles do not add up to the cells; otherwise SOLVED exactly when some assignment within the domains uses each tile as often as there are tiles and gives every tile its number of filled neighbours, IMPOSSIBLE exactly when none does, for every strategy and order; it raises if and only if the strategy is the highest-value one and the first propagation leaves a cell without values |
| `HexiomSearch.SolveStep` | bench/pyperformance/pyperf_hexiom.py:421-448 | the same for the search with its first propagation, on the board it is given |
| `HexiomSearch.SolveStepFirst` | bench/pyperformance/pyperf_hexiom.py:645-666 | the same for the benchmark's own copy of the search, which never raises |
| `HexiomSearch.SolveOpen` | bench/pyperformance/pyperf_hexiom.py:429-448 | the recursion without the first propagation ends and judges its board rightly; it raises just when some cell has no value left |
| `HexiomSearch.RaisingBoards` | bench/pyperformance/pyperf_hexiom.py:109-118 | on every board of every side, numbered and linked as by `HexGrid`, cells of fives and sixes alone make the strategy raise: the first rule empties a corner |
| `HexiomRules.EmptiedAtOnce` | bench/pyperformance/pyperf_hexiom.py:243-262 | an open cell whose values all lie outside the bounds its filled and its open neighbours set is without values after the first propagation, whatever the rest of the board |
| `HexiomSearch.TryMove` | bench/pyperformance/pyperf_hexiom.py:433-447 | a move is SOLVED exactly when the board with that cell fixed has a solution |
| `HexiomSearch.IsSolved` | bench/pyperformance/pyperf_hexiom.py:381-418 | SOLVED and IMPOSSIBLE are right, and OPEN means that some cell has a choice left |
| `HexiomSearch.DoneIsExact` | bench/pyperformance/pyperf_hexiom.py:407-415 | when every cell is fixed and within its bounds, every number is exact, so `exact` decides nothing on its own |
| `HexiomSearch.SomeValueSolves` | bench/pyperformance/pyperf_hexiom.py:433-448 | a board has a solution just when it has one with some value of a cell |
| `HexiomSearch.FindMoves` | bench/pyperformance/pyperf_hexiom.py:323-337 | in either order all values of one open cell, or none when no cell is open |
| `HexiomSearch.NextCellFirst` | bench/pyperformance/pyperf_hexiom.py:120-124 | the first cell that is not fixed, or none when all are |
| `HexiomSearch.NextCellMinChoice` | bench/pyperformance/pyperf_hexiom.py:91-98 | of the cells with a choice, one with fewest values |
| `HexiomSearch.NextCellMaxChoice` | bench/pyperformance/pyperf_hexiom.py:100-107 | of the cells with a choice, one with most values |
| `HexiomSearch.NextCellHighestValue` | bench/pyperformance/pyperf_hexiom.py:109-118 | a cell holding the greatest tile still open anywhere; it raises just when some cell has no value left |
| `HexiomSearch.NextCellByNeighbors` | bench/pyperformance/pyperf_hexiom.py:126-150 | an open cell with most, or fewest, filled neighbours |
| `HexiomSearch.NextCell` | bench/pyperformance/pyperf_hexiom.py:152-170 | each strategy gets the cell it is named after, and only the highest-value one can raise |
| `HexiomSearch.CheckValid` | bench/pyperformance/pyperf_hexiom.py:451-464 | missing tiles count as none, and the total must be the number of cells |
| `HexiomSearch.FilterTiles` | bench/pyperformance/pyperf_hexiom.py:86-89 | taking tiles the board does not have from every cell keeps the solutions |
| `Hexiom.ConstraintPass` | bench/pyperformance/pyperf_hexiom.py:238-316 | a pass is the three rules in turn, as functions of the domains; it keeps exactly the set of solutions, and says `changed` just when a domain differs, which then are smaller in all |
| `Hexiom.Propagate` | bench/pyperformance/pyperf_hexiom.py:423-440 | repeating passes ends with the domains no pass changes any more, and keeps the solutions |
| `Hexiom.PruneFree` | bench/pyperformance/pyperf_hexiom.py:243-262 | the first rule keeps the solutions |
| `Hexiom.PruneTiles` | bench/pyperformance/pyperf_hexiom.py:264-283 | the second rule keeps the solutions, though its counts were taken before the changes it makes |
| `Hexiom.ForceNeighbors` | bench/pyperformance/pyperf_hexiom.py:285-314 | the third rule keeps the solutions |
| `Hexiom.FixedSays` | bench/pyperformance/pyperf_hexiom.py:303-314 | a number already reached leaves the open neighbours empty; one that needs them all fills them |
| `Hexiom.UsedUp` | bench/pyperformance/pyperf_hexiom.py:269-273 | a tile used up in an earlier state is in no open cell of a later one's solutions |
| `Hexiom.Done.Remove` | bench/pyperformance/pyperf_hexiom.py:67-72 | takes out one value and says whether it was there; the other cells stay |
| `Hexiom.Done.SetDone` | bench/pyperformance/pyperf_hexiom.py:61-62 | leaves one value; the other cells stay |
| `Hexiom.Done.RemoveUnfixed` | bench/pyperformance/pyperf_hexiom.py:78-84 | takes a value no solution uses there from every open cell and from no fixed one, keeping the solutions |
| `HexiomBoard.FilledSplits` | bench/pyperformance/pyperf_hexiom.py:247-257 | a solution's filled neighbours are the fixed ones and some of the open ones |
| `HexiomBoard.UsesFixed` | bench/pyperformance/pyperf_hexiom.py:264-273 | a solution uses a tile at least where it is fixed, and more often if anywhere else |
| `HexiomBoard.UsesPossible` | bench/pyperformance/pyperf_hexiom.py:274-283 | a solution uses a tile only where it is possible, and everywhere there when the counts agree |
| `HexGrid.BuildHex` | bench/pyperformance/pyperf_hexiom.py:181-203 | every cell of the board gets one number, row by row; there are `3 size (size - 1) + 1` |
| `HexGrid.LinkNodes` | bench/pyperformance/pyperf_hexiom.py:205-212 | each cell lists exactly the cells of the board that touch it, each of them once and in the order of the six directions, and both list each other |
| `HexGrid.NeighborsAreSteps` | bench/pyperformance/pyperf_hexiom.py:28-33 | the six directions lead to the cells for which neither coordinate nor their difference changes by more than one, and to no other |
| `HexGrid.LinkCount` | bench/pyperformance/pyperf_hexiom.py:205-212 | on every board of side 2 or more a cell has three neighbours in one of the six corners, four elsewhere on the border and six inside |
| `HexGrid.NoLinks` | bench/pyperformance/pyperf_hexiom.py:205-212 | the only cell of a board of side 1 has none |
| `Lu.Factor` | bench/pyperformance/pyperf_scimark_lu.py:139-166 | it raises if and only if the first min(height, width) columns of the matrix are linearly dependent; otherwise the rows exchanged as recorded equal L times U entry by entry, L unit lower triangular with no entry above 1 in size |
| `Lu.LuFactor` | bench/pyperformance/pyperf_scimark_lu.py:139-166 | after every prefix of columns the exchanged original equals the partial product plus what is left, whether it ends or raises |
| `Lu.FindPivot` | bench/pyperformance/pyperf_scimark_lu.py:143-150 | the first row from `j` on whose entry is greatest in size |
| `Lu.EliminationKeeps` | bench/pyperformance/pyperf_scimark_lu.py:158-166 | eliminating a column moves the factorisation on by one column |
| `Lu.FactorsMultiply` | bench/pyperformance/pyperf_scimark_lu.py:139-166 | when all columns are done, every entry of the exchanged matrix is that of L times U |
| `Lu.StuckIsDependent` | bench/pyperformance/pyperf_scimark_lu.py:152-153 | a column with nothing but zeros from its pivot on makes the columns dependent |
| `Lu.DoneIsIndependent` | bench/pyperformance/pyperf_scimark_lu.py:139-166 | a finished factorisation makes them independent |
| `Lu.PermutedRows` | bench/pyperformance/pyperf_scimark_lu.py:150-156 | the recorded exchanges only permute the rows |
| `Fannkuch.Fannkuch` | bench/pyperformance/pyperf_fannkuch.py:15-49 | every permutation is visited exactly once, n! visits in all; the result is the most flips any permutation takes, though the guard passes over some |
| `Fannkuch.CountFlips` | bench/pyperformance/pyperf_fannkuch.py:31-37 | the flip loop ends, having counted the flips |
| `Fannkuch.CountedIsEnough` | bench/pyperformance/pyperf_fannkuch.py:30-40 | for every permutation there is one the guard lets through that takes at least as many flips |
| `Fannkuch.OneFlipMore` | bench/pyperformance/pyperf_fannkuch.py:30-37 | exchanging the values 0 and n - 1 of a permutation the guard stops makes one that takes a flip more |
| `Fannkuch.FlipSettles` | bench/pyperformance/pyperf_fannkuch.py:34-37 | a flip raises the sum of 2^i over the settled positions, which bounds the loop |
| `Fannkuch.Advance` | bench/pyperformance/pyperf_fannkuch.py:42-49 | each step adds one to the number the digits spell in factorial base, and reports the end just at n! - 1 |
| `Fannkuch.TopInjective` | bench/pyperformance/pyperf_fannkuch.py:42-47 | different digits give different permutations |
| `Fannkuch.TopSurjective` | bench/pyperformance/pyperf_fannkuch.py:42-47 | every rearrangement is reached by some digits |
| `Hull.ConvexHull` | tools/gen-spitfire-map.py:505-517 | of points not all on a line, the strictly convex counter-clockwise polygon of distinct input points with every input point on or to the left of each edge; of points on one line the least and the greatest, or none if all are equal |
| `Hull.Half` | tools/gen-spitfire-map.py:507-514 | a chain that turns strictly left, from the first point to the last, with all points on or to its left |
| `Hull.ChainGrows` | tools/gen-spitfire-map.py:509-513 | dropping what does not turn left and appending the point keeps the chain |
| `Hull.Corner` | tools/gen-spitfire-map.py:515-517 | where one chain ends and the other begins the polygon turns strictly left |
| `Hull.ClosedDistinct` | tools/gen-spitfire-map.py:515-517 | the two chains joined name no point twice |
| `Simplify.SimplifyLine` | tools/gen-spitfire-map.py:256-273 | it ends; the result is a subsequence of both ends and exactly the points that stay: of those between two that do the first farthest one, if it is beyond the tolerance, and what stays on either side of it; some point of the segment joining the kept points around it is within the tolerance of every dropped point |
| `Simplify.Farthest` | tools/gen-spitfire-map.py:264-268 | the first of the points between the ends that are farthest from their segment, if any is off it |
| `Simplify.NearestOfSegment` | tools/gen-spitfire-map.py:247-253 | the distance to a segment is that to the nearest of its points |
| `Simplify.SpanSplit` | tools/gen-spitfire-map.py:269-272 | splitting a span at a kept point keeps the invariant of the worklist |
| `Line.DrawLine` | external/tigr/tigr.c:404-430 | for all end points it ends at `(x1, y1)` after max(dx, dy) pixels, each the next along the longer side, inside the bounding box and within half a pixel of the line, of two that are just that far the one before the step; equal end points plot one pixel; the end pixel is drawn if and only if the end points are equal |
| `Line.OnePixel` | external/tigr/tigr.c:420-428 | which leaves one pixel for every step |
| `Line.StepStaysOnLine` | external/tigr/tigr.c:420-428 | the error term steps the longer side always and the shorter one just when that stays within half a pixel |

## Left out

- SinCos.SinCosMinusOne: returns the exact values, because rounding and the quality of the polynomial are not the subject; that every call is in the polynomial's range is proved (`SinCos.InOctant`).
- Fourier.MakeCfft: promises a plan only below 3^24 / 2, because Bluestein's padded length may be four times the length and must still factorise.
- Simplify.SimplifyLine: compares squared distances with the square of the tolerance, which is the same for the tolerances from 0 on that it asks for.
- Inflate.TigrInflate: speaks of well-formed streams; what a malformed stream leads to, other than by the failures of `Inflate.State.Bits` and the copies, is not modelled.
- LoadPng.Load: speaks of files that are whole chunks with a well-formed stream, depths 1, 2, 4 and 8, and sizes that do not overflow a C int. It asks for what keeps the code inside its buffers: palette indices and transparent colours that end before the file does and, in an image of width zero, that no row runs past the pixels and that the first row's filter reads no more than the one zero byte above it.
- Chunks.JoinData: takes `realloc` for a success; where the first data chunks are empty the source asks it for no bytes, and C leaves it to the implementation whether NULL comes back, with which the file is refused.
- Png.SaveThenLoad: asks for at least one row, because `endrun` needs a run, and for a size whose byte count fits a C int.
- Fannkuch.Fannkuch: asks for `n` of at least 1, because the code indexes the first element.
- Memory: allocation failures and `longjmp` are an optional result, C integers do not overflow.
- Special cases: the branches for `ido == 1` skip twiddle factors that are 1, and the b and f variants of the passes differ in a sign; the model has one loop with the sign as a parameter. Rows of width zero have a loop of their own (`Filters.EmptyRow`) where the source runs through the same one.
- RealPasses.FixedForward: radf2 to radf5 share one nest of loops around their bodies, and each body assigns frequency by frequency, where the source interleaves; no cell is read after it is written.
- RealPasses.FixedBackward: the same for radb2 to radb5.
- RealFourier.Fft: takes the vector as a sequence, so the test that a matrix is n x 1 or 1 x n is not modelled.
- zlib in Python: `zlib.decompress` is a library call, so `png_pixels` starts from the joined data and from the raw rows.
- Hexiom input and output: reading level files and printing positions.
- Drawing: clipping, blending and everything else of tigr besides `tigrLine` and the PNG code.
- Map tools: queries, projections, `chain_ways` and file output.
- Interpreter: compiler, core words and editor of telic.
