# Areal regridding engine and granule URL helpers, in Dafny

This project models two parts of the geosif/pysif tools for OCO-2/OCO-3 solar-induced
fluorescence data. It proves properties of each model.

**The areal regridding engine** (`src/geosif/gridding.py`) turns a day's Level-2
sounding footprints into a latitude/longitude raster.
- Every footprint is a quadrilateral. Its four vertices are mapped from degrees to
  grid-index space, with clipping to the grid.
- A footprint inside one cell adds weight 1 to that cell.
- A footprint spanning several cells, but fewer than n longitude cells, is sampled on
  an n x n lattice. Each lattice point adds weight 1/n^2 to its cell.
- Every contribution moves the cell's running mean by the incremental rule
  `mean <- mean + (w_inc / w) * (x - mean)`.
- Pixels are kept only when their vertex box lies strictly inside the grid's bounds,
  their longitude width is below 50 degrees, and every recognised filter holds.
- The day loop writes one slice per day. A slice holds the weights and the rounded
  means, with -999 where the weight is below 1e-10. The rasters are zeroed before the
  next day.

The model is imperative where the source is:
- `Sampling.DivLine2`, `Sampling.DivLine` and `Sampling.GetPoints` fill caller-supplied
  arrays.
- `Accumulation.Accumulator` holds the weight raster (`array2`), the mean raster
  (`array3`) and the 10 x 10 sample buffer. Its methods update them in place.
- `DayLoop.CreateGriddedRaster` loops over the days, fills and resets the rasters.

Each method is proved against a specification function:
- `Updates` gives the single-cell updates a day's footprints perform.
- `CellWeight`, `CellValueSum` and `MeanAfter` give what replaying those updates leaves
  in a cell.

Lemmas then say what those functions mean:
- every footprint adds total weight 1;
- samples stay in the footprint's index box;
- the mean is the weighted average, whatever the order of the footprints.

**The downloader helpers** (`src/pysif/download.py`) are also modelled:
- the UNH GOSIF product URL: annual, monthly or 8-day, with the 8-day rounding;
- the `.html`/`.dmr` suffix stripping;
- the OpenDAP-to-archive URL rewrite;
- the bookkeeping of a time-range download: the date list, the per-year grouping,
  the collected granules and the not-found dates.

URL construction is pure and is modelled as functions. The time-range bookkeeping is a
method with loops (`Download.DownloadTimerange`), proved equal to a specification
function (`Download.TimerangeSpec`), whose properties are lemmas.

Modelling conventions:
- Dates are integer day numbers counted from 1970-01-01, so the written time of a day
  is the day itself.
- Floating-point quantities are `real`.
- Fetching a granule is a parameter `source: int -> Fetch`, giving a granule, a
  FileNotFoundError or another error.
- A year directory's listing is a parameter `listing: int -> Option<seq<Entry>>`.
  `None` means fetching the listing raised. Each entry carries the date its file name
  encodes, when it names a granule.
- The calendar year of a day is a parameter `yearOf`.

The files:
- `wrappers.dfy`: `Option` and `Result`.
- `sampling.dfy`: the sub-grid sampler.
- `folds.dfy`: sums and concatenations over sequences.
- `accumulation.dfy`: the update semantics and the accumulator class.
- `granule.dfy`: the per-granule filter and index mapping.
- `day_loop.dfy`: date generation, grid centres and the per-day finalize/reset loop.
- `as_written.dfy`: the subdivision factor as the source passes it.
- `download.dfy`: the downloader helpers.

## Model

| member | source | states |
|---|---|---|
| Sampling.SubPointEnds | src/geosif/gridding.py:158-164 | the first of the n points is half a sub-step after p1, the last half a sub-step before p2 |
| Sampling.SubPointSpacing | src/geosif/gridding.py:158-164 | consecutive points are two half-steps (one sub-step) apart |
| Sampling.SubPointBetween | src/geosif/gridding.py:124-129 | every point lies between the end points, strictly between them when they differ |
| Sampling.MinOf4 | src/geosif/gridding.py:450-453 | the minimum of four vertex coordinates is one of them and below all of them |
| Sampling.MaxOf4 | src/geosif/gridding.py:450-453 | the maximum of four vertex coordinates is one of them and above all of them |
| Sampling.SampleInBox | src/geosif/gridding.py:196-200 | every lattice point lies in the bounding box of the quadrilateral's four vertices |
| Sampling.DivLine2 | src/geosif/gridding.py:134-164 | writes point i = p1 + (2i+1)(p2-p1)/(2n) of the segment into lats[i] and lons[i] for i < n and leaves the rest of both arrays unchanged |
| Sampling.DivLine | src/geosif/gridding.py:100-130 | writes the n points of the segment into row j of the buffer, latitude in plane 0 and longitude in plane 1; every other buffer entry is unchanged |
| Sampling.GetPoints | src/geosif/gridding.py:168-200 | fills buffer[i, j] for all i, j < n with point j of the segment joining point i of edge v0->v1 and point i of edge v3->v2; every other entry is unchanged |
| Accumulation.MinIdx | src/geosif/gridding.py:246-249 | the footprint's least vertex index on an axis is one of its four indices and below all of them |
| Accumulation.MaxIdx | src/geosif/gridding.py:246-249 | the footprint's greatest vertex index on an axis is one of its four indices and above all of them |
| Accumulation.AsReals | src/geosif/gridding.py:265 | the integer vertex indices handed to the sampler, as reals, in order |
| Accumulation.LatticeIndex | src/geosif/gridding.py:269-273 | the flattened position k < n*n of the lattice names row k/n and column k%n, both inside the lattice |
| Accumulation.MeanStep | src/geosif/gridding.py:259-263 | one incremental-mean step keeps mean * weight equal to the old mean * old weight plus increment * value |
| Accumulation.SampleInIndexBox | src/geosif/gridding.py:243-249 | the floored cell of every sample lies within the footprint's integer min/max index box |
| Accumulation.FootprintUpdatesInBox | src/geosif/gridding.py:255-280 | every update of a footprint carries the footprint's own values, a positive weight, and a cell inside its index box |
| Accumulation.SampledInBox | src/geosif/gridding.py:264-280 | every sample update of a sampled footprint lands in the index box with weight 1/n^2 and the footprint's values |
| Accumulation.FootprintTotalWeight | src/geosif/gridding.py:253-280 | a single-cell or sampled footprint adds total weight exactly 1; one with longitude span n or more performs no update |
| Accumulation.SharesTotal | src/geosif/gridding.py:253 | n*n increments of fac = 1/(n*n) add up to 1 |
| Accumulation.SampledTotalWeight | src/geosif/gridding.py:264-274 | the n*n samples of a sampled footprint add up to weight 1 |
| Accumulation.WideFootprintIgnored | src/geosif/gridding.py:264 | a footprint spanning several cells with longitude span at least n adds no weight and touches no cell |
| Accumulation.SumsAppend | src/geosif/gridding.py:255-280 | a cell's weight and value sum over two batches of updates are the sums over each batch |
| Accumulation.TouchedAppend | src/geosif/gridding.py:255-280 | a cell is touched by two batches exactly when one of them touches it |
| Accumulation.SumsSnoc | src/geosif/gridding.py:259 | one more update raises its own cell's weight by its increment and no other cell's |
| Accumulation.UpdatesSnoc | src/geosif/gridding.py:255 | the footprints are processed one after the other: one more footprint appends its own updates |
| Accumulation.OrderIndependent | src/geosif/gridding.py:255-280 | any reordering of the footprints gives every cell the same weight, the same value sum and, from zero buffers, the same mean |
| Accumulation.SingleCellCount | src/geosif/gridding.py:256-263 | k footprints inside one cell give it weight k and, from zero buffers, the arithmetic mean of their values |
| Accumulation.SingleCellTotals | src/geosif/gridding.py:256-263 | k single-cell footprints in one cell give it weight k and the sum of their values |
| Accumulation.SingleCellSnoc | src/geosif/gridding.py:256-263 | one more single-cell footprint adds 1 to its cell's weight and its value to the cell's value sum |
| Accumulation.TwoFootprintsAverage | src/geosif/gridding.py:256-263 | two single-cell footprints with values 4 and 8 give weight 2 and mean 6 |
| Accumulation.CellWeightNonNegative | src/geosif/gridding.py:259-274 | with positive increments a cell's weight is non-negative, and positive exactly when some update touches it |
| Accumulation.MomentSnocAt | src/geosif/gridding.py:274-280 | an update at the cell keeps mean * weight equal to the starting moment plus the value sum |
| Accumulation.MomentSnocElsewhere | src/geosif/gridding.py:274-280 | an update at another cell leaves the cell's mean and weight as they were |
| Accumulation.MeanAfterMoment | src/geosif/gridding.py:259-280 | the accumulator invariant: after any positive updates, mean * weight = starting mean * weight + sum of increment * value |
| Accumulation.MeanAfterUntouched | src/geosif/gridding.py:255-280 | a cell no update touches keeps its mean |
| Accumulation.MeanAfterFromZero | src/geosif/gridding.py:255-280 | from zero buffers each cell's mean is the weighted average of the values it received, or 0 without weight |
| Accumulation.MeanAfterAppend | src/geosif/gridding.py:255-280 | replaying two batches is replaying the first and then the second on its result |
| Accumulation.ReplaySnoc | src/geosif/gridding.py:259-280 | one more update adds its increment to its cell's weight and blends its cell's mean towards its value by increment / new weight |
| Accumulation.UpdatesPositive | src/geosif/gridding.py:253-280 | every update the footprints perform has a positive weight |
| Accumulation.Accumulator.constructor | src/geosif/gridding.py:637-642 | allocates zeroed rasters of the grid's shape and an n x n x 2 sample buffer |
| Accumulation.Accumulator.Apply | src/geosif/gridding.py:259-263 | adds w to the cell's weight and moves every variable's mean the fraction w / new weight towards x; the rasters then hold the replay of one more update |
| Accumulation.Accumulator.AddFootprint | src/geosif/gridding.py:255-280 | one footprint's pass of favg_all leaves the rasters holding the replay of that footprint's updates |
| Accumulation.Accumulator.AddSampled | src/geosif/gridding.py:264-280 | the sampled branch applies the n*n lattice samples, each with weight 1/n^2, to the floored sample cells |
| Accumulation.Accumulator.FavgAll | src/geosif/gridding.py:203-280 | every cell's weight grows by the increments it received and its mean is the replay of the incremental updates |
| Accumulation.Accumulator.Reset | src/geosif/gridding.py:692-694 | both rasters are zero afterwards |
| AsWritten.ZeroBuffer | src/geosif/gridding.py:637-638 | the sample buffer starts as 10 x 10 x 2 zeros |
| AsWritten.BufferAfterGetPoints | src/geosif/gridding.py:196-200 | get_points with factor n leaves a 10 x 10 x 2 buffer |
| AsWritten.FootprintUpdatesAsWritten | src/geosif/gridding.py:264-280 | with factor n the whole 10 x 10 buffer is applied with weight 1/n^2; the call raises for n = 0 or a sampled footprint with n > 10 |
| AsWritten.AsWrittenOverweights | src/geosif/gridding.py:505 | with one variable, a footprint spanning two latitude cells adds weight 100 (99 of it to cell (0, 0)); with factor 10 it adds 1 |
| AsWritten.AsWrittenDropsSpan | src/geosif/gridding.py:264 | with one variable, a footprint spanning two longitude cells is dropped; with factor 10 it adds weight 1 |
| GranuleStep.ComparatorOf | src/geosif/gridding.py:48-50 | a comparator is equality, greater or less exactly when it is one of that kind's spellings |
| GranuleStep.BaseScoreIff | src/geosif/gridding.py:454-460 | the base score is at most 5, and 5 exactly when the vertex box is strictly inside the bounds and under 50 degrees wide |
| GranuleStep.FilterScoreIff | src/geosif/gridding.py:461-479 | the filters' score plus 5 is at most the counter, and reaches it exactly when every recognised filter holds |
| GranuleStep.RetainedIff | src/geosif/gridding.py:454-481 | a pixel is retained exactly when its vertex box is strictly inside the bounds, under 50 degrees wide, and passes every recognised filter |
| GranuleStep.UnrecognisedIgnored | src/geosif/gridding.py:476-479 | a filter with an unrecognised comparator changes no pixel's fate |
| GranuleStep.RetainedBelow | src/geosif/gridding.py:481 | the retained indices below k are all below k |
| GranuleStep.RetainedBelowExact | src/geosif/gridding.py:481 | np.where on the mask gives exactly the retained pixels, each once, in increasing order |
| GranuleStep.Clip | src/geosif/gridding.py:493-494 | the result lies in [lo, hi] when lo <= hi, and is the input itself when that already lies there |
| GranuleStep.CellIndex | src/geosif/gridding.py:487-494 | the cell index of a coordinate lies in [0, len - 1] on a non-empty axis |
| GranuleStep.CellIndexCovers | src/geosif/gridding.py:487-494 | a coordinate strictly inside the bounds needs no clipping and lies in the cell its index names |
| GranuleStep.CornerCells | src/geosif/gridding.py:487-494 | the four vertex cells of a pixel are the cell indices of its four vertices |
| GranuleStep.Values | src/geosif/gridding.py:484-486 | a pixel's values are its entries of the variables' arrays, in the order the variables are named |
| GranuleStep.RetainedBoundsOpen | src/geosif/gridding.py:454-460 | a retained pixel exists only when the bounds are non-empty on both axes |
| GranuleStep.Footprints | src/geosif/gridding.py:487-502 | the footprints handed on are the retained pixels, with their four clipped vertex cells on each axis and their values |
| GranuleStep.ClassifyAccumulates | src/geosif/gridding.py:433-507 | only a granule with a centre strictly inside the bounds and some retained pixel is accumulated; all its footprints have one value per variable and vertex cells inside the grid |
| GranuleStep.ProcessDayGranule | src/geosif/gridding.py:426-509 | the rasters grow by the retained footprints' updates when the granule is accumulated; otherwise they are left as they were |
| DayLoop.GenerateDates | src/geosif/gridding.py:283-299 | every day from start to end inclusive, in increasing order, one per day; none when start > end |
| DayLoop.Ceil | src/geosif/gridding.py:579-590 | the least integer not below x |
| DayLoop.ArangeIff | src/geosif/gridding.py:579-590 | np.arange yields exactly the points start + k * step below stop |
| DayLoop.GridCentresRegular | src/geosif/gridding.py:578-590 | an axis a whole number N of cells long gets exactly N centres, the k-th in the middle of cell k and inside the axis |
| DayLoop.CentreCount | src/geosif/gridding.py:578-590 | an axis N cells long gets N centres, because eps is below one cell |
| DayLoop.CentreAt | src/geosif/gridding.py:579-584 | the k-th centre is lo + (k + 1/2) * res |
| DayLoop.CentreInside | src/geosif/gridding.py:579-584 | the centre of cell k of N lies strictly inside the axis |
| DayLoop.RoundHalfEven | src/geosif/gridding.py:674 | rounding moves a value by at most one half |
| DayLoop.Round6Close | src/geosif/gridding.py:674 | np.round(x, 6) moves x by at most half a millionth |
| DayLoop.Round6Exact | src/geosif/gridding.py:674 | a value with at most six decimals is kept as it is |
| DayLoop.DaySpecTime | src/geosif/gridding.py:670-686 | a day writes nothing exactly when its fetch failed with another error or the grid is empty (np.max raises); otherwise it records its own time |
| DayLoop.WrittenSlices | src/geosif/gridding.py:670-676 | a written day has some positive weight; each variable cell holds the rounded weighted average, or -999 where the weight is below 1e-10 |
| DayLoop.Finalize | src/geosif/gridding.py:670-679 | the output read off the rasters is the day's finalize specification |
| DayLoop.GridDay | src/geosif/gridding.py:645-686 | on zeroed rasters, one day's fetch, processing and finalize give that day's specification |
| DayLoop.CreateGriddedRaster | src/geosif/gridding.py:644-694 | one output per day from start to end, each the day's specification on rasters zeroed before the day; the grid has one cell per np.arange centre |
| DayLoop.AbortDayAsWritten | src/geosif/gridding.py:644-690 | UnboundLocalError can end the loop only on a day whose fetch failed with an error other than FileNotFoundError |
| DayLoop.AbortsExactlyOnFirstDay | src/geosif/gridding.py:685-690 | as written, the unbound name raises UnboundLocalError exactly when the first day's fetch fails with an error other than FileNotFoundError, and on no other day |
| DayLoop.StaysBound | src/geosif/gridding.py:647-690 | once a day's fetch has bound the granule, no later day raises UnboundLocalError |
| DayLoop.FailedFetchSkipsDay | src/geosif/gridding.py:685-686 | a failed fetch leaves that day unwritten |
| Download.StripSuffix | src/pysif/download.py:376-386 | a suffix is removed only when present: the result plus the suffix is the input, and an input without it is returned unchanged |
| Download.GranuleUrlSuffixes | src/pysif/download.py:528-534 | a link is its granule URL followed by ".dmr.html", ".html", ".dmr" or nothing; a link with neither suffix is kept whole |
| Download.DapGranuleUrlShape | src/pysif/download.py:372-386 | replacing "https" by "dap4" shortens the link by one character per occurrence; the opened URL is what is left without its suffixes |
| Download.ReplaceAllLength | src/pysif/download.py:667 | str.replace changes the length by the replacement's length difference for every occurrence replaced |
| Download.ReplaceAllAbsent | src/pysif/download.py:667 | a name without "_v2" is used unchanged |
| Download.ReplaceAllSkip | src/pysif/download.py:667 | a first character that cannot start the pattern is copied |
| Download.ReplaceAllPrefix | src/pysif/download.py:667 | a prefix free of the pattern's first character is copied unchanged |
| Download.GosifFileName | src/pysif/download.py:667 | the dataset GOSIF_v2 names its files GOSIF |
| Download.DigitChar | src/pysif/download.py:678 | a digit's character is a decimal digit with that value |
| Download.Zeros | src/pysif/download.py:678 | z zero characters |
| Download.NatToString | src/pysif/download.py:672 | str of a natural number is a non-empty string of decimal digits |
| Download.PadLeft | src/pysif/download.py:678 | zeros are added in front up to the width; the value's digits are kept at the end |
| Download.ParseNatToString | src/pysif/download.py:672 | reading the decimal digits back gives the number |
| Download.ParseNatAllZeros | src/pysif/download.py:678 | a string of zeros reads as 0 |
| Download.ParseNatZeros | src/pysif/download.py:678 | leading zeros do not change the value of a digit string |
| Download.Pow10 | src/pysif/download.py:691 | a power of ten is at least 1 |
| Download.NatToStringShort | src/pysif/download.py:691 | a number below 10^width has at most width digits |
| Download.ZeroPadRoundTrip | src/pysif/download.py:678-691 | a value below 10^width is written in exactly width digits that read back as the value |
| Download.DaysInMonth | src/pysif/download.py:701-702 | every month has 28 to 31 days |
| Download.YearLength | src/pysif/download.py:701-702 | the months add up to 366 days in a leap year and 365 otherwise |
| Download.DaysBeforeNonNegative | src/pysif/download.py:702 | the days before a month are never negative |
| Download.MonthInYear | src/pysif/download.py:702 | a month ends within its year |
| Download.DayOfYearRange | src/pysif/download.py:701-702 | strftime %j of a valid date lies in 1..365, or 1..366 in a leap year |
| Download.EightDayPeriod | src/pysif/download.py:689-704 | the period start is at most the day, at most seven days before it, and is 1 modulo 8 |
| Download.EightDayInYear | src/pysif/download.py:689-704 | for a day-of-year from 1 to 366 the period starts on a day from 1 to 361 |
| Download.EightDayField | src/pysif/download.py:697-706 | a calendar date's 8-day field is three digits naming a period start between 1 and 361 at most seven days before the date |
| Download.MonthField | src/pysif/download.py:678 | a month 1..12 is written in two digits that read back as the month |
| Download.LastIndexOf | src/pysif/download.py:430-431 | the position of the last occurrence of a character, or -1 when there is none |
| Download.UrlJoinAppends | src/pysif/download.py:664-712 | urljoin onto a base ending in '/' appends the relative reference |
| Download.Split | src/pysif/download.py:430-431 | str.split gives at least one part and no part contains the separator |
| Download.SplitJoin | src/pysif/download.py:430-431 | joining the parts with the separator gives back the string |
| Download.SplitLast | src/pysif/download.py:430-431 | the last part is the text after the last separator |
| Download.DataDir | src/pysif/download.py:425-428 | OCO2_DATA exactly when the dataset starts with OCO2, OCO3_DATA otherwise |
| Download.ArchiveUrl | src/pysif/download.py:423-434 | the rewrite fails (an index error) exactly when the URL has no '/' |
| Download.ArchiveUrlPath | src/pysif/download.py:423-434 | a URL .../year/file becomes the data portal URL + data_dir/dataset/year/file |
| Download.ProductPath | src/pysif/download.py:669-711 | Annual/ with neither month nor day, Monthly/ with a month only, 8day/ with a day; the file name starts with name_year and ends with .tif.gz (the stamp between them is stated by `Download.ProductFileName`) |
| Download.ProductFileName | src/pysif/download.py:669-706 | the file name is name_year, then the stamp, then .tif.gz: no stamp for an annual request; ".M" and the month's two digits (reading back as the month when it is 1..12) for a monthly one; with a day, three digits naming the first day n of the day's 8-day period (n is 1 modulo 8 and at most seven days before the day-of-year, which is the day alone or the calendar date's with a month), read back as n whenever the day-of-year is 1..366, as it always is with a month |
| Download.ConstructUnhUrl | src/pysif/download.py:641-715 | fails exactly when a month and a day given together do not form a calendar date |
| Download.UnhUrlLayout | src/pysif/download.py:664-712 | on a base ending in '/' the URL is base + full dataset name + "/" + product directory + a file name built from the dataset with "_v2" removed |
| Download.YearsInOrderKeys | src/pysif/download.py:502-504 | the grouping's years are distinct and are exactly the years of the dates |
| Download.BucketMembers | src/pysif/download.py:502-504 | a year's bucket holds exactly the dates of that year |
| Download.YearsSnoc | src/pysif/download.py:503-504 | one more date adds its year to the keys only when the year is new |
| Download.BucketSnoc | src/pysif/download.py:503-504 | one more date is appended to its own year's bucket and no other |
| Download.BucketEmpty | src/pysif/download.py:502-504 | a year that is not a key has an empty bucket |
| Download.BucketIncreasing | src/pysif/download.py:502-504 | buckets keep the order of the dates |
| Download.GatherSnoc | src/pysif/download.py:514-515 | one more year extends the requested dates by its bucket |
| Download.GatherUnaffected | src/pysif/download.py:512-515 | buckets of years other than a new date's are unchanged by it |
| Download.GatherGrows | src/pysif/download.py:512-515 | an existing year's bucket gains exactly the new date |
| Download.RequestedIsPermutation | src/pysif/download.py:502-515 | the requested dates are the dates, each exactly once |
| Download.YearsLast | src/pysif/download.py:502-504 | with years that never decrease, the last date's year is the last key |
| Download.RequestedInOrder | src/pysif/download.py:502-515 | when the year never decreases along the dates, the requested dates are the dates in their own order |
| Download.DatedInAppend | src/pysif/download.py:540 | appending granules dated on the given days keeps them all dated on those days |
| Download.CollectYearDates | src/pysif/download.py:523-540 | a collected granule's date is one of its year's dates |
| Download.BucketDated | src/pysif/download.py:527 | a granule dated in a year's bucket is dated on one of the dates |
| Download.CollectDates | src/pysif/download.py:514-540 | every collected granule is dated on a requested day |
| Download.TimerangePlan | src/pysif/download.py:489-543 | a reversed range fails; otherwise the requested dates are start..end, each once, every granule is dated in the range, and the not-found dates are exactly the days in the range without a granule |
| Download.GroupByYear | src/pysif/download.py:502-504 | the setdefault/append loop yields the years in first-appearance order, with each year's dates in order |
| Download.CollectYearLoop | src/pysif/download.py:523-540 | the loop over a listing gives the year's specification |
| Download.FailureSticks | src/pysif/download.py:535 | once the rewrite of a listed URL fails, the whole listing fails the same way |
| Download.CollectFailureSticks | src/pysif/download.py:514-540 | once one year fails, the whole collection fails the same way |
| Download.CollectYears | src/pysif/download.py:514-540 | the per-year loop gives the collection's specification, and the requested dates are the buckets one after the other |
| Download.DownloadTimerange | src/pysif/download.py:489-543 | the method's outcome is the time-range specification, whose properties TimerangePlan states |

## Left out

- Network access is not modelled: HTTP sessions, Earthdata authentication, caching, directory scraping and pydap access. A year's directory listing and a day's granule are parameters.
- The threaded and sequential download step, and the size/exists/prompt logic before it, are not modelled. `Download.DownloadTimerange` stops at the plan: requested dates, collected granules and not-found dates.
- The early return when no granule is found is not modelled separately. It returns the same not-found dates as the plan.
- netCDF output is the sequence of per-day outputs. Closing granules, file creation and `date2num` (the identity on day numbers) are not modelled. In particular, when a later day's fetch raises an error other than FileNotFoundError (an OSError opening an unreadable local file, say), `granule` still names the previous day's granule, which the finally clause closes a second time; an error from that second close would end the run. The model does not capture this.
- `get_variable_array` reshaping is not modelled. A granule arrives decoded as centre arrays, four vertex coordinates per pixel, and a map from field names to per-pixel arrays. The transpose of vertex arrays whose first axis is 4 is not modelled.
- Float32 arithmetic is not modelled; all quantities are `real`. np.arange in float32 can give a different number of centres than the exact computation.
- The schema lookup by regular expression and the regular expression matching of granule names are not modelled. An entry carries the date its name encodes, or none.
- Calendar years of day numbers are the parameter `yearOf`. `datetime`/`strptime` conversions are not modelled.
- Dictionary semantics of the filters are not modelled. Filters are a sequence, so two filters on one key are possible in the model but not in the source.
- The up-front dataset checks before a download, and the date-range validation before gridding, are not modelled because they are network-bound. The local-directory validation before gridding (`validate_local_dir`) is not modelled because it is file-system-bound: it asserts that the directory exists and raises FileNotFoundError when no file of the start month is there.
- Printing and verbose output are not modelled.
- `Download.UrlJoin`: models urljoin only for relative references made of plain path segments onto a base whose path ends after its last '/'. It does not handle dot segments, absolute references, a reference with a query, a base with no path after the host (urljoin adds the '/'; the model cuts at the '/' of "//"), a base whose query or fragment contains '/', or the collapsing of repeated '/' in the base path.
- `Download.ConstructUnhUrl`: through `Download.UrlJoin`, it is faithful only for bases ending in '/' or whose last '/' ends the path, as the callers' base URL does; on a base such as "https://data.globalecology.unh.edu" the model gives "https://GOSIF_v2/..." where the source gives "https://data.globalecology.unh.edu/GOSIF_v2/...".
- `DayLoop.Finalized`: a day whose granule processing raised part-way would keep the updates applied so far. With the subdivision factor equal to the buffer size no step raises, so the model does not have such a path.
- `DayLoop.CreateGriddedRaster`: requires positive latitude and longitude resolutions, which the source never checks. A resolution of 0 makes np.arange raise ZeroDivisionError before the first day. A negative resolution gives an axis that is empty (as for the default bounds, minimum below maximum) or descending; over an empty grid every day with a granule is skipped when np.max raises on the empty raster, and every day without one writes a zero slice. Runs with a resolution of 0 or below are not modelled.
- `DayLoop.CreateGriddedRaster`: models the corrected loop. The early end of the source loop (see Findings) is modelled separately by `DayLoop.AbortDayAsWritten`.

## Findings

| source | as written | input that shows it | evidently intended | confidence | as-written member | corrected member |
|---|---|---|---|---|---|---|
| src/geosif/gridding.py:505 | the number of variables is passed to favg_all as the subdivision factor. The sample buffer is 10 x 10 (lines 637-638), and favg_all applies all of it (lines 267-274) | one variable; a footprint with latitude cells 5, 5, 6, 6 and longitude cells 3, 3, 3, 3 adds weight 100, 99 of it to cell (0, 0) | a factor equal to the buffer side, 10, so that every footprint adds weight 1 | not executed | AsWritten.AsWrittenOverweights | Accumulation.FootprintTotalWeight |
| src/geosif/gridding.py:264 | with the number of variables as the factor, a one-variable call drops every footprint spanning two longitude cells | one variable; a footprint with latitude cells 5, 5, 5, 5 and longitude cells 3, 4, 4, 3 adds nothing | sampled with factor 10, adding weight 1 | not executed | AsWritten.AsWrittenDropsSpan | Accumulation.FootprintTotalWeight |
| src/geosif/gridding.py:685-690 | the finally clause reads `granule`, which is unbound when the first day's fetch raises an error other than FileNotFoundError | the first day's fetch fails with a network error; UnboundLocalError ends create_gridded_raster | report the error, skip the day and go on | not executed | DayLoop.AbortsExactlyOnFirstDay | DayLoop.CreateGriddedRaster |
