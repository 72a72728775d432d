# bitlib core, modelled and verified in Dafny

bitlib is a Go toolkit for generative graphics. This project models its
discrete core and proves properties of the model:

- **collections/**:
  - the binary heaps MinPQ and MaxPQ;
  - the doubly linked list, the slice-backed List, Stack, Queue and the map-backed Set;
  - MakeGrid.
- **bitmap/**: the B,G,R raster buffer and the BMP serialiser, which writes a 14-byte file header, a 40-byte info header and then the pixel bytes.
- **blmath/**:
  - the integer helpers: GCD, LCM, Simplify, ModPosInt and DigRoot;
  - the exact real helpers: Lerp, Norm, Map, Wrap, Clamp and Equalish;
  - Abs, Min and Max;
  - the slice helpers MinMaxFloats and MapFloats.
- **blcolor/**: packing and unpacking 0xRRGGBB and 0xAARRGGBB colours, and the palette list.
- **geom/**: the point, segment, triangle and polygon objects and their lists, vectors, lines, the collision tests, rectangles, open intervals, sizes, affine transforms and the Bézier path.
- **delaunay/**: the Bowyer–Watson bookkeeping that builds a triangulation.

Each Go file is one Dafny module, in a file named after it
(`geom/triangle_list.go` is `GeomTriangleList` in `geom_triangle_list.dfy`).
Three modules are shared:
- `Wrappers`: Option and Result.
- `SeqUtil`: position-wise insert, remove and reverse.
- `Sorting`: the sorted permutation that stands in for Go's library sorts.

Modelling conventions:

- **Objects and values.**
  - A Go type whose methods update its fields in place is a Dafny `class` with `modifies` clauses. These are the heaps, List, Stack, Queue, Set, Bitmap, Palette, Point, Segment, Triangle, the point, segment and triangle lists, Polygon and BezierCurve.
  - A type that is never changed is a `datatype`. These are Color, Vector, Line, Rect, Size, OpenInterval and AffineTransform.
  - Go's loops are `while` loops with their invariants. Each method is proved against a pure function of its inputs or of the old state, and the lemmas are stated about that function.
- **Numbers.**
  - `float64` is `real`. NaN and the infinities are outside the model, so a float division by zero is a precondition.
  - Go `int` is an unbounded `int`, and a Go integer division or remainder is written out with truncation toward zero.
  - The 32-bit fields of the BMP header are written modulo 2^32.
- **Failures.**
  - A returned Go `error` is an `Option<string>`: `None` for nil, `Some` with the message the source builds otherwise.
  - Where Go returns an element beside the error (List.Get and Remove, LinkedList.GetValueAt), the model returns both, so the zero value returned on error is kept.
  - A function that can end the program with `log.Fatal` returns a `Result`: `Ok` with its value, or `Err` with the message the source prints.
  - A `%d` in a message is written by `Fmt.IntString`.
  - A Go panic (index out of range, nil dereference, integer division by zero) is excluded by a precondition.
- **Aliasing.**
  - Point objects may be shared by several segments, triangles and lists.
  - The in-place transforms of segments, triangles and their lists state the new coordinates of every point through `GeomPoint.Transformed`: a point held in k slots is moved k times.
  - The copying variants say which results are fresh.
- **Names defined nowhere in the source.** `Point.Equals` and the circumcircle test are called but never defined, so they are parameters:
  - `peq` on coordinates;
  - `inCircle` on a triangle and a point.
  A clone is a new point with the same coordinates.
- **Delaunay triangles** are values with an identity (`DelaunayModel.DTri`), because `Triangle.Equals` and `hasSharedEdge` compare pointers. The slice that the source appends to and splices is a sequence that each step replaces.

### Where the code differs from a textbook triangulation

The model follows the code in each of these cases:
- The Go code has no degenerate-input error: fewer than three points, or collinear points, simply run the passes.
- A point whose pass finds no bad triangle is not an error; the pass adds nothing.
- `removeOuter` does not step back after splicing out a triangle. With two adjacent triangles equal to the same removal entry, the second one survives (`DelaunayModel.SweepSkipsNeighbour`). Its cleanliness is therefore proved under that proviso (`DelaunayModel.RemoveOuterClean`).
- The super-triangle is built from the bounding box with the factors 0.1, 2, 1.7 and 0.5. It contains every input point (`DelaunayModel.SuperTriContainsAll`), but for a box of zero width or height it is degenerate rather than strictly enclosing.

## Model

| member | source | states |
|---|---|---|
| Bitmap.Clamp01 | bitmap/bitmap.go:62-64 | clamp lies in [0, 1], returns a value already in [0, 1] unchanged, and sends values below 0 to 0 and above 1 to 1 |
| Bitmap.SlotInRange | bitmap/bitmap.go:36-37 | for an in-bounds pixel the three slots (y*W + x)*3 .. +2 lie inside a buffer of W*H*3 slots, starting at a multiple of 3 |
| Bitmap.SlotsDisjoint | bitmap/bitmap.go:36-37 | two different pixels of a row width own disjoint triples of slots |
| Bitmap.Bitmap.constructor | bitmap/bitmap.go:13-20 | NewBitmap stores w and h and allocates a fresh buffer of w*h*3 slots, every slot 0 |
| Bitmap.Bitmap.Clear | bitmap/bitmap.go:23-29 | every slot holds its channel of (r, g, b) in the order b, g, r, unclamped; every in-bounds GetPixel then reads (r, g, b) |
| Bitmap.Bitmap.ClearedReads | bitmap/bitmap.go:23-38 | a buffer holding b, g, r in every triple reads back as (r, g, b) at every in-bounds pixel |
| Bitmap.Bitmap.SlotCount | bitmap/bitmap.go:15 | the buffer length is a multiple of three |
| Bitmap.Bitmap.GetPixel | bitmap/bitmap.go:32-38 | outside the raster (0, 0, 0) without touching the buffer; inside, slots i+2, i+1, i of the pixel's triple as (r, g, b) |
| Bitmap.Bitmap.SetPixel | bitmap/bitmap.go:41-49 | outside the raster the buffer is unchanged; inside, exactly the pixel's three slots change, it reads back as the clamped inputs and every other pixel reads as before |
| Bitmap.Bitmap.SetPixelGray | bitmap/bitmap.go:52-54 | SetPixel with val on all three channels: the pixel reads back clamped (val, val, val), all other pixels unchanged |
| BitmapEncoder.LE16 | bitmap/encoder.go:26-27 | a uint16 field is written as exactly two bytes |
| BitmapEncoder.LE32 | bitmap/encoder.go:18-20 | a uint32 or int32 field is written as exactly four bytes |
| BitmapEncoder.LE32Wrapped | bitmap/encoder.go:14 | converting the size to uint32 before writing it changes no byte of the field |
| BitmapEncoder.Int32 | bitmap/encoder.go:24-25 | int32(w) lies in [-2^31, 2^31), leaves in-range values alone and differs from w by a multiple of 2^32 |
| BitmapEncoder.Unsigned | bitmap/encoder.go:18-33 | the number a little-endian field of k bytes holds is below 256^k |
| BitmapEncoder.LE16RoundTrip | bitmap/encoder.go:26-27 | reading a written uint16 field back gives the low 16 bits of the value |
| BitmapEncoder.LE32RoundTrip | bitmap/encoder.go:18-20 | reading a written uint32 field back gives the value modulo 2^32 |
| BitmapEncoder.LE32SignedRoundTrip | bitmap/encoder.go:24-25 | reading a written int32 field back as two's complement gives int32(v) |
| BitmapEncoder.FileHeaderLayout | bitmap/encoder.go:14-20 | the file header is 14 bytes: "BM", (54 + pixel bytes) mod 2^32, a zero reserved word, offset 54 |
| BitmapEncoder.InfoGeometryLayout | bitmap/encoder.go:23-27 | info header bytes 0-15: header size 40, int32 width and height, 1 plane, 24 bits per pixel |
| BitmapEncoder.InfoFormatLayout | bitmap/encoder.go:28-33 | info header bytes 16-39: compression 0, raw size 0, 3780 pixels per metre both ways, 0 palette and 0 important colours |
| BitmapEncoder.BmpHeaderLayout | bitmap/encoder.go:16-33 | the header is 54 bytes: file header at 0, info geometry at 14, info format at 30 |
| BitmapEncoder.EncodeBmp | bitmap/encoder.go:11-37 | the encoded file is the 54-byte header followed by exactly one byte per pixel-data entry, in order, with no padding |
| BlColor.RGB | blcolor/color.go:22-24 | RGB is RGBA with alpha 1 |
| BlColor.RGBA | blcolor/color.go:27-29 | the four channels are stored exactly as given |
| BlColor.LowByte | blcolor/color.go:34-36 | v & 0xff always lies in 0..255 |
| BlColor.RGBAHex | blcolor/color.go:63-65 | each channel times 255 gives back the 0..255 argument |
| BlColor.RGBHex | blcolor/color.go:58-60 | RGBAHex with alpha byte 255, so alpha is exactly 1 |
| BlColor.Number | blcolor/color.go:32-37 | alpha is 1 and each of the three unpacked channels lies in [0, 1], whatever bits lie above the low 24 |
| BlColor.NumberWithAlpha | blcolor/color.go:40-46 | red, green and blue lie in [0, 1]; alpha times 255 is value >> 24, unmasked |
| BlColor.Lerp | blcolor/color.go:49-55 | t = 0 gives colorA and t = 1 gives colorB, on all four channels |
| BlColor.Grey | blcolor/color.go:141-143 | red, green and blue equal the shade, alpha 1 |
| BlColor.GreyHex | blcolor/color.go:146-148 | the same colour as RGBHex with three equal bytes, i.e. Grey(shade / 255) |
| BlColor.NumberOfBytes | blcolor/color.go:32-60 | for bytes r, g, b, Number(r*65536 + g*256 + b) is RGBHex(r, g, b) |
| BlColor.NumberWithAlphaRange | blcolor/color.go:40-46 | the alpha of NumberWithAlpha lies in [0, 1] if and only if 0 <= value < 2^32 |
| BlColorPalette.ByKeyTotal | blcolor/palette.go:63-67 | ordering colours by luminance is a total preorder, which sorting needs |
| BlColorPalette.Palette.constructor | blcolor/palette.go:17-21 | NewPalette holds no colours, size 0 |
| BlColorPalette.Palette.Size | blcolor/palette.go:24-26 | the number of colours held |
| BlColorPalette.Palette.Get | blcolor/palette.go:29-34 | an index in 0..Size-1 gives that colour; every other index is the error "Can't get index %d for palette of size %d." with the index and the size (fatal in the source) |
| BlColorPalette.Palette.Add | blcolor/palette.go:37-39 | the colour is appended, Size grows by one and Get at the old size returns it |
| BlColorPalette.Palette.AddRGB | blcolor/palette.go:42-44 | appends RGB(r, g, b), which reads back with alpha 1 |
| BlColorPalette.Palette.AddRGBA | blcolor/palette.go:47-49 | appends RGBA(r, g, b, a), which reads back unchanged |
| BlColorPalette.Palette.Len | blcolor/palette.go:58-60 | Len equals Size |
| BlColorPalette.Palette.Less | blcolor/palette.go:63-67 | Less(i, j) can only hold for two different slots holding different colours |
| BlColorPalette.Palette.LessStrict | blcolor/palette.go:63-67 | Less never holds both ways round, and colours incomparable under Less have equal luminance |
| BlColorPalette.Palette.Swap | blcolor/palette.go:70-72 | colours i and j change places, all others stay, and the palette holds the same colours |
| BlColorPalette.Palette.Sort | blcolor/palette.go:75-77 | the result is a permutation of the colours in which no later colour is darker than an earlier one |
| BlMath.Abs | blmath/math.go:219-224 | the magnitude of an integer: non-negative and equal to x or -x |
| BlMath.Min | blmath/math.go:227-232 | one of the two arguments, and at most both |
| BlMath.Max | blmath/math.go:235-240 | one of the two arguments, and at least both |
| BlMath.RAbs | blmath/math.go:219-224 | the float instance of Abs: non-negative and equal to x or -x |
| BlMath.RMin | blmath/math.go:227-232 | the float instance of Min: one of the arguments and at most both |
| BlMath.RMax | blmath/math.go:235-240 | the float instance of Max: one of the arguments and at least both |
| BlMath.GoRem | blmath/math.go:255 | Go's integer % is smaller in magnitude than the divisor and has the sign of the dividend |
| BlMath.GoDivision | blmath/math.go:188-192 | Go's / and % together give back the dividend: a == b*(a/b) + a%b |
| BlMath.GoRemZeroIsDivides | blmath/math.go:188 | for a positive divisor, a % b == 0 in Go exactly when b divides a |
| BlMath.ExactQuotient | blmath/math.go:201-210 | dividing by an exact divisor gives the same quotient under Go's truncation and the mathematical one |
| BlMath.CommonDivisorAtMostGreatest | blmath/math.go:185-195 | the downward search from k finds a common divisor of both arguments that no common divisor up to k exceeds, and at least 1 when k >= 1 |
| BlMath.GcdIsGreatest | blmath/math.go:185-195 | GCD is 0 exactly when an argument is 0; otherwise it divides both and every common divisor is at most it |
| BlMath.GCD | blmath/math.go:185-195 | the loop returns the greatest common divisor as characterised by GcdIsGreatest |
| BlMath.Gcd | blmath/math.go:185-195 | the value GCD computes; GcdIsGreatest proves it is 0 exactly when an argument is 0 and otherwise the greatest common divisor |
| BlMath.LcmAsWritten | blmath/math.go:198-202 | the division succeeds exactly when both arguments are non-zero |
| BlMath.LcmAsWrittenPanicsOnZero | blmath/math.go:198-202 | LCM(0, 5) divides by zero although the least common multiple is 0 |
| BlMath.Lcm | blmath/math.go:198-202 | the corrected LCM: 0 exactly when an argument is 0, otherwise a common multiple of the absolute values of x and y, with LCM times GCD equal to the absolute value of x*y |
| BlMath.LcmAsQuotient | blmath/math.go:201 | \|x\|·\|y\| / GCD may be computed by dividing either factor first, and is positive |
| BlMath.LcmAgreesWhereDefined | blmath/math.go:198-202 | where the written LCM does not panic it equals the corrected one |
| BlMath.SimplifyLowestTerms | blmath/math.go:205-211 | Simplify keeps the value of the fraction (cross products equal) and, for a non-zero numerator, leaves parts whose GCD is 1 |
| BlMath.Simplify | blmath/math.go:205-211 | the fraction divided by its GCD; SimplifyLowestTerms proves the value is kept and the parts are coprime |
| BlMath.QuotientsCoprime | blmath/math.go:209-210 | dividing both parts by their GCD leaves coprime parts |
| BlMath.ModPosIntRange | blmath/math.go:252-258 | for b > 0 the result is in [0, b) and is the Euclidean remainder; for b < 0 it is in (b, 0]; it always differs from a by a multiple of b |
| BlMath.ModPosInt | blmath/math.go:252-258 | the remainder moved to the sign of the divisor; ModPosIntRange proves its range and that it differs from a by a multiple of b |
| BlMath.DigitSumFacts | blmath/math.go:263-273 | a digit sum keeps the value modulo 9, is positive for positive input and strictly smaller for values of two or more digits |
| BlMath.DigRoot | blmath/math.go:263-273 | the loop ends with the digital root: for positive input a value in 1..9 congruent to the input mod 9, and inputs up to 9 (negatives too) unchanged |
| BlMath.DifferenceSymmetric | blmath/math.go:29-31 | Difference is symmetric, non-negative and zero exactly for equal arguments |
| BlMath.Difference | blmath/math.go:29-31 | the distance between two numbers; DifferenceSymmetric proves it symmetric, non-negative and zero only for equal arguments |
| BlMath.UnitQuotient | blmath/math.go:34-36 | a normalised value between its two bounds lies in [0, 1] |
| BlMath.ScaledStep | blmath/math.go:39-41 | an interpolation step by t in [0, 1] stays between the two ends |
| BlMath.LerpNormInverse | blmath/math.go:34-41 | Lerp(0) = min, Lerp(1) = max, Norm(min) = 0, Norm(max) = 1, and Norm and Lerp undo each other |
| BlMath.Lerp | blmath/math.go:39-41 | the point at fraction t from min to max; LerpNormInverse proves its ends and that Norm undoes it |
| BlMath.Norm | blmath/math.go:34-36 | the fraction of the way value lies from min to max; LerpNormInverse proves it is 0 at min, 1 at max and undoes Lerp |
| BlMath.MapProperties | blmath/math.go:44-47 | Map sends srcMin to dstMin and srcMax to dstMax, the reverse map undoes it, and values inside the source range land inside the destination range |
| BlMath.Map | blmath/math.go:44-47 | the value carried from one range to another; MapProperties proves the ends map to the ends, the reverse map undoes it and inside stays inside |
| BlMath.FloorBracket | blmath/math.go:87 | the floored quotient puts the value between two consecutive multiples of the period |
| BlMath.WrapRange | blmath/math.go:84-89 | with min < max the result is in [min, max), differs from the input by a whole number of periods, and is the input itself when that is already in range |
| BlMath.Wrap | blmath/math.go:84-89 | the value shifted by whole periods into [min, max); WrapRange proves the range, the whole-period shift and that an in-range value is kept |
| BlMath.ClampRange | blmath/math.go:102-107 | the result lies between the bounds in either order, is the input when inside, the nearer bound when outside, and swapping the bounds changes nothing |
| BlMath.Clamp | blmath/math.go:102-107 | the value limited to the range of the two bounds; ClampRange proves it lies between them in either order and is the input or the nearer bound |
| BlMath.EqualishMeaning | blmath/math.go:159-161 | Equalish(a, b, d) holds exactly when the distance from a to b is at most d, and is symmetric |
| BlMath.Equalish | blmath/math.go:159-161 | closeness within delta; EqualishMeaning proves it means a distance of at most delta and is symmetric |
| BlMath.SeqMinMaxBound | blmath/math.go:293-305 | the smallest and largest entries of a non-empty list are entries of it and bound every entry |
| BlMath.MinMaxFloats | blmath/math.go:293-305 | an empty list gives (MaxFloat64, -MaxFloat64); otherwise the loop returns the list's minimum and maximum |
| BlMath.MapFloats | blmath/math.go:283-290 | same length as the input, entry i mapped from the list's own [min, max] onto [minVal, maxVal], and every entry within the destination bounds |
| CollectionsMinPQ.OrderedExceptPairs | collections/minpq.go:60-79 | the recursive heap-order predicate holds exactly when every parent/child pair outside the two exempt places is in order |
| CollectionsMinPQ.RootIsMin | collections/minpq.go:46-48 | in a heap the root slot is the least of the live slots 1..n |
| CollectionsMinPQ.LiveBagSize | collections/minpq.go:56-58 | the live slots 1..n hold exactly n values |
| CollectionsMinPQ.LiveBagLast | collections/minpq.go:37-43 | dropping the last live slot takes exactly its value out of the held multiset |
| CollectionsMinPQ.DelMinBag | collections/minpq.go:37-43 | exchanging the root with slot n and dropping slot n takes exactly one copy of the root's value out |
| CollectionsMinPQ.LiveBagRoot | collections/minpq.go:46-48 | the root's value is held and no held value lies below it |
| CollectionsMinPQ.InsertStart | collections/minpq.go:25-34 | the old slots copied and a new value put in slot n form a heap except above slot n, holding one more value |
| CollectionsMinPQ.Swap | collections/minpq.go:60-79 | exchanges two slots and leaves every other slot alone |
| CollectionsMinPQ.SwapLive | collections/minpq.go:60-79 | exchanging two live slots keeps the multiset of held values |
| CollectionsMinPQ.SwimStep | collections/minpq.go:74-79 | one swim exchange moves the single break in heap order from slot c up to its parent |
| CollectionsMinPQ.SwimPair | collections/minpq.go:74-79 | after a swim exchange every other parent/child pair is still in order |
| CollectionsMinPQ.SwimDone | collections/minpq.go:74-79 | when swim stops (root reached or parent in order) the heap order holds everywhere |
| CollectionsMinPQ.SinkStep | collections/minpq.go:60-72 | one sink exchange with the smaller child moves the single break in heap order down to that child |
| CollectionsMinPQ.SinkPair | collections/minpq.go:60-72 | after a sink exchange every other parent/child pair is still in order |
| CollectionsMinPQ.SinkDone | collections/minpq.go:60-72 | when sink stops (no child, or the slot in order with its chosen child) the heap order holds everywhere |
| CollectionsMinPQ.DelMinStart | collections/minpq.go:37-43 | moving the last live slot to the root and dropping it leaves a heap except below the root |
| CollectionsMinPQ.DelMinFacts | collections/minpq.go:37-43 | the root is the least held value, and after the exchange the remaining slots hold every other value, a heap except below the root |
| CollectionsMinPQ.MinPQ.constructor | collections/minpq.go:16-22 | NewMinPQ is empty: zero count, empty array |
| CollectionsMinPQ.MinPQ.Min | collections/minpq.go:46-48 | the returned value is held and is the least held value; an empty queue is excluded because the source reads slot 1 unguarded |
| CollectionsMinPQ.MinPQ.ContentsSize | collections/minpq.go:56-58 | the held multiset has n elements |
| CollectionsMinPQ.MinPQ.IsEmpty | collections/minpq.go:51-53 | IsEmpty holds exactly when nothing is held |
| CollectionsMinPQ.MinPQ.Size | collections/minpq.go:56-58 | Size is the number of held values |
| CollectionsMinPQ.MinPQ.Grow | collections/minpq.go:26-32 | the reallocation makes a fresh array of length 2n whose front is the old array, slot for slot |
| CollectionsMinPQ.MinPQ.Insert | collections/minpq.go:25-34 | the count grows by one, exactly the value is added to the held multiset, the heap order holds, and the array is replaced by one of length 2n exactly when it had no room for slot n |
| CollectionsMinPQ.MinPQ.Swim | collections/minpq.go:74-79 | from heap order broken only above slot k, swim restores the heap order and keeps the held multiset |
| CollectionsMinPQ.MinPQ.Sink | collections/minpq.go:60-72 | from heap order broken only below slot k, sink restores the heap order and keeps the held multiset |
| CollectionsMinPQ.MinPQ.DelMin | collections/minpq.go:37-43 | returns the least held value, lowers the count by one, removes exactly one copy of it, keeps the heap order and the array; an empty queue is excluded because the source reads slot 1 unguarded |
| CollectionsMaxPQ.OrderedExceptPairs | collections/maxpq.go:60-79 | the recursive heap-order predicate holds exactly when every parent/child pair outside the two exempt places is in order |
| CollectionsMaxPQ.RootIsMax | collections/maxpq.go:46-48 | in a heap the root slot is the greatest of the live slots 1..n |
| CollectionsMaxPQ.LiveBagSize | collections/maxpq.go:56-58 | the live slots 1..n hold exactly n values |
| CollectionsMaxPQ.LiveBagLast | collections/maxpq.go:37-43 | dropping the last live slot takes exactly its value out of the held multiset |
| CollectionsMaxPQ.DelMaxBag | collections/maxpq.go:37-43 | exchanging the root with slot n and dropping slot n takes exactly one copy of the root's value out |
| CollectionsMaxPQ.LiveBagRoot | collections/maxpq.go:46-48 | the root's value is held and no held value lies above it |
| CollectionsMaxPQ.InsertStart | collections/maxpq.go:25-34 | the old slots copied and a new value put in slot n form a heap except above slot n, holding one more value |
| CollectionsMaxPQ.Swap | collections/maxpq.go:60-79 | exchanges two slots and leaves every other slot alone |
| CollectionsMaxPQ.SwapLive | collections/maxpq.go:60-79 | exchanging two live slots keeps the multiset of held values |
| CollectionsMaxPQ.SwimStep | collections/maxpq.go:74-79 | one swim exchange moves the single break in heap order from slot c up to its parent |
| CollectionsMaxPQ.SwimPair | collections/maxpq.go:74-79 | after a swim exchange every other parent/child pair is still in order |
| CollectionsMaxPQ.SwimDone | collections/maxpq.go:74-79 | when swim stops (root reached or parent in order) the heap order holds everywhere |
| CollectionsMaxPQ.SinkStep | collections/maxpq.go:60-72 | one sink exchange with the larger child moves the single break in heap order down to that child |
| CollectionsMaxPQ.SinkPair | collections/maxpq.go:60-72 | after a sink exchange every other parent/child pair is still in order |
| CollectionsMaxPQ.SinkDone | collections/maxpq.go:60-72 | when sink stops (no child, or the slot in order with its chosen child) the heap order holds everywhere |
| CollectionsMaxPQ.DelMaxStart | collections/maxpq.go:37-43 | moving the last live slot to the root and dropping it leaves a heap except below the root |
| CollectionsMaxPQ.DelMaxFacts | collections/maxpq.go:37-43 | the root is the greatest held value, and after the exchange the remaining slots hold every other value, a heap except below the root |
| CollectionsMaxPQ.MaxPQ.constructor | collections/maxpq.go:16-22 | NewMaxPQ is empty: zero count, empty array |
| CollectionsMaxPQ.MaxPQ.Max | collections/maxpq.go:46-48 | the returned value is held and is the greatest held value; an empty queue is excluded because the source reads slot 1 unguarded |
| CollectionsMaxPQ.MaxPQ.ContentsSize | collections/maxpq.go:56-58 | the held multiset has n elements |
| CollectionsMaxPQ.MaxPQ.IsEmpty | collections/maxpq.go:51-53 | IsEmpty holds exactly when nothing is held |
| CollectionsMaxPQ.MaxPQ.Size | collections/maxpq.go:56-58 | Size is the number of held values |
| CollectionsMaxPQ.MaxPQ.Grow | collections/maxpq.go:26-32 | the reallocation makes a fresh array of length 2n whose front is the old array, slot for slot |
| CollectionsMaxPQ.MaxPQ.Insert | collections/maxpq.go:25-34 | the count grows by one, exactly the value is added to the held multiset, the heap order holds, and the array is replaced by one of length 2n exactly when it had no room for slot n |
| CollectionsMaxPQ.MaxPQ.Swim | collections/maxpq.go:74-79 | from heap order broken only above slot k, swim restores the heap order and keeps the held multiset |
| CollectionsMaxPQ.MaxPQ.Sink | collections/maxpq.go:60-72 | from heap order broken only below slot k, sink restores the heap order and keeps the held multiset |
| CollectionsMaxPQ.MaxPQ.DelMax | collections/maxpq.go:37-43 | returns the greatest held value, lowers the count by one, removes exactly one copy of it, keeps the heap order and the array; an empty queue is excluded because the source reads slot 1 unguarded |
| CollectionsLinkedList.LinkedList.constructor | collections/linked_list.go:30-32 | a new list has no nodes: Head and Tail are nil |
| CollectionsLinkedList.LinkedList.Head | collections/linked_list.go:36-46 | the value at Head is the first of the list's values |
| CollectionsLinkedList.LinkedList.Tail | collections/linked_list.go:50-59 | the value at Tail is the last of the list's values |
| CollectionsLinkedList.LinkedList.Add | collections/linked_list.go:36-46 | the value goes in front and becomes Head; on a non-empty list Tail stays, on an empty one the value is also Tail |
| CollectionsLinkedList.LinkedList.Append | collections/linked_list.go:50-59 | the value goes at the end and becomes Tail; on a non-empty list Head stays |
| CollectionsLinkedList.LinkedList.Insert | collections/linked_list.go:63-95 | succeeds exactly for 0 <= index <= length, placing the value at index and shifting the later ones; a negative index is the error "unable to insert to negative index", an index past the end is "unable to add item at index %d. max is %d" with the index and length - 1; a failed call leaves the list unchanged |
| CollectionsLinkedList.LinkedList.GetValueAt | collections/linked_list.go:98-118 | for 0 <= index < length the value at that position and no error; any other index gives the zero value and an error: a negative index is the error "unable to get item at negative index", an index past the end is "unable to get item at index %d. max is %d" with the index and length - 1 |
| CollectionsList.Filtered | collections/list.go:144-152 | the kept elements are exactly the elements of the list that pass, never more of them |
| CollectionsList.FilteredAll | collections/list.go:144-152 | filtering keeps a list whose elements all pass whole and empties one whose elements all fail |
| CollectionsList.Mapped | collections/list.go:155-161 | same length, element i is f of element i |
| CollectionsList.List.constructor | collections/list.go:18-22 | NewList is empty |
| CollectionsList.List.Append | collections/list.go:25-27 | the value is added at the end |
| CollectionsList.List.Prepend | collections/list.go:30-32 | the value is added at the front |
| CollectionsList.List.Get | collections/list.go:35-45 | an index in range gives that element and no error; any other index gives the zero value and an error: "index %d out of bounds, list length %d" with the index and the length when it is at or past the end, "negative index not possible" when it is negative |
| CollectionsList.List.GetFirst | collections/list.go:54-56 | the element Get(0) returns, on a non-empty list (the source panics on an empty one) |
| CollectionsList.List.GetLast | collections/list.go:59-61 | the element Get(length - 1) returns, on a non-empty list |
| CollectionsList.List.Remove | collections/list.go:64-76 | in range: returns the element and deletes exactly it, the rest in order; out of range: the zero value and the same two errors as Get, the list unchanged |
| CollectionsList.List.RemoveFirst | collections/list.go:79-83 | returns the first element, and the list is what followed it |
| CollectionsList.List.RemoveLast | collections/list.go:86-91 | returns the last element, and the list is what preceded it |
| CollectionsList.List.Insert | collections/list.go:94-103 | succeeds exactly for 0 <= index < length (so it never appends), placing the value at index; a rejected call gives the same two errors as Get and changes nothing |
| Fmt.NatString | collections/list.go:38 | the decimal digits %d writes for a natural number, only zero starting with '0' |
| Fmt.IntString | collections/list.go:38 | %d of an integer: a leading minus sign exactly for a negative one |
| Fmt.NatStringValue | collections/list.go:38 | reading the digits back gives the number written |
| Fmt.IntStringInjective | collections/list.go:38 | two integers are written the same exactly when they are equal, so each message names its index and length unambiguously |
| CollectionsList.List.Length | collections/list.go:114-116 | the number of elements |
| CollectionsList.List.Contains | collections/list.go:119-121 | true exactly when some position holds the value |
| CollectionsList.List.IndexOf | collections/list.go:124-131 | the first index holding the value, or -1 when none does; non-negative exactly when Contains holds |
| CollectionsList.List.Reverse | collections/list.go:134-136 | the elements in the opposite order |
| CollectionsList.List.Sort | collections/list.go:139-141 | an ascending permutation of the old elements |
| CollectionsList.List.Filter | collections/list.go:144-152 | a new list holding the passing elements in order; the receiver is unchanged |
| CollectionsList.List.Map | collections/list.go:155-161 | a new list of the same length with f applied to each element; the receiver is unchanged |
| CollectionsList.List.Slice | collections/list.go:169-171 | a copy of the same length, element i being what Get(i) gives |
| CollectionsList.List.Clear | collections/list.go:174-176 | no elements remain, length 0 |
| CollectionsList.SortIdempotent | collections/list.go:139-141 | sorting an already sorted list changes nothing |
| CollectionsStack.Popped | collections/stack.go:23-28 | n Pops take off exactly n items |
| CollectionsStack.PushAllThenPop | collections/stack.go:18-28 | after pushing xs onto any stack, one Pop per item returns xs in reverse order |
| CollectionsStack.Stack.constructor | collections/stack.go:8-10 | NewStack is empty |
| CollectionsStack.Stack.Push | collections/stack.go:13-15 | the item goes on top and the size grows by one |
| CollectionsStack.Stack.PushAll | collections/stack.go:18-20 | the items go on in order, so Popping them gives them back in reverse |
| CollectionsStack.Stack.Top | collections/stack.go:23-28 | the top is the last item pushed |
| CollectionsStack.Stack.Pop | collections/stack.go:23-28 | returns the top item and removes exactly it; the size drops by one (the source panics on an empty stack) |
| CollectionsStack.Stack.IsEmpty | collections/stack.go:31-33 | true exactly when the size is 0 |
| CollectionsStack.Stack.HasItems | collections/stack.go:37-39 | the negation of IsEmpty |
| CollectionsStack.Stack.Size | collections/stack.go:42-44 | the number of items |
| CollectionsQueue.Dequeued | collections/queue.go:23-27 | n Dequeues take off exactly n items |
| CollectionsQueue.DequeuedPrefix | collections/queue.go:23-27 | n Dequeues return the first n items in the order they were enqueued |
| CollectionsQueue.EnqueueAllThenDequeue | collections/queue.go:18-27 | after EnqueueAll(xs), draining the queue returns the earlier items and then xs in their original order |
| CollectionsQueue.Queue.constructor | collections/queue.go:8-10 | NewQueue is empty |
| CollectionsQueue.Queue.Enqueue | collections/queue.go:13-15 | the item goes to the back and the size grows by one |
| CollectionsQueue.Queue.EnqueueAll | collections/queue.go:18-20 | the items go to the back in their order |
| CollectionsQueue.Queue.Dequeue | collections/queue.go:23-27 | returns the front item and removes exactly it; the size drops by one (the source panics on an empty queue) |
| CollectionsQueue.Queue.IsEmpty | collections/queue.go:30-32 | true exactly when the size is 0 |
| CollectionsQueue.Queue.HasItems | collections/queue.go:36-38 | the negation of IsEmpty |
| CollectionsQueue.Queue.Size | collections/queue.go:41-43 | the number of items |
| CollectionsSet.Set.constructor | collections/set.go:8-10 | NewSet has no members |
| CollectionsSet.Set.Add | collections/set.go:13-15 | the item becomes a member, no other membership changes, and the size grows only when the item was absent |
| CollectionsSet.Set.Delete | collections/set.go:18-20 | the item is no longer a member, no other membership changes, and the size drops only when it was present |
| CollectionsSet.Set.Has | collections/set.go:23-25 | true exactly for members; absent items read false |
| CollectionsSet.Set.Items | collections/set.go:28-34 | every member exactly once, nothing else, and as many as Size |
| CollectionsSet.Set.Size | collections/set.go:37-39 | the number of members |
| CollectionsSet.Set.HasItems | collections/set.go:43-45 | the negation of IsEmpty |
| CollectionsSet.Set.IsEmpty | collections/set.go:48-50 | true exactly when the size is 0 |
| CollectionsSet.Set.EmptyIffNoMembers | collections/set.go:37-50 | a set is empty exactly when nothing is a member |
| CollectionsSliceUtils.MakeGrid | collections/slice_utils.go:5-11 | rows fresh rows of cols zero values each, no two rows the same array, so a write to one row changes no other |
| SeqUtil.InsertAt | collections/list.go:101 | one longer; positions before k unchanged, x at k, later positions moved up by one |
| SeqUtil.InsertAtSlices | collections/list.go:101 | inserting is the slice splice s[..k] + [x] + s[k..] |
| SeqUtil.RemoveAt | collections/list.go:74 | one shorter; positions before k unchanged, later positions moved down by one |
| SeqUtil.RemoveAtSlices | collections/list.go:74 | removing is the slice splice s[..k] + s[k+1..] |
| SeqUtil.InsertAtMultiset | collections/list.go:101 | inserting adds exactly one occurrence of x |
| SeqUtil.RemoveAtMultiset | collections/list.go:74 | removing drops exactly one occurrence of s[k] |
| SeqUtil.RemoveInsert | collections/list.go:64-103 | removing what was just inserted at k gives the sequence back |
| SeqUtil.Reversed | collections/list.go:135 | same length, position i holds the element from the mirrored position |
| SeqUtil.ReversedTwice | collections/list.go:134-136 | reversing twice restores the list |
| Sorting.Insert | collections/list.go:140 | inserting one element adds exactly that element |
| Sorting.SortBy | collections/list.go:139-141 | the sorted result is a permutation of its input |
| Sorting.InsertSorted | collections/list.go:139-141 | inserting into a sorted sequence keeps it sorted under any total preorder |
| Sorting.SortBySorted | collections/list.go:139-141 | the sorted result is ordered by the comparison |
| Sorting.SortedHeads | collections/list.go:139-141 | two sorted permutations of one another under a total order start with the same element |
| Sorting.TailsPermuted | collections/list.go:139-141 | removing equal heads keeps two permutations permutations |
| Sorting.SortedUnique | collections/list.go:139-141 | under a total order two sorted permutations of each other are equal, so any correct sort gives the same result |
| Sorting.SortByIsTheSortedPermutation | collections/list.go:139-141 | under a total order every sorted permutation of the input is SortBy of it |
| GeomPoint.ApplyNTranslation | geom/segment_list.go:44-48 | a point listed n times in a translated collection moves by n times the offset |
| GeomPoint.PowerStep | geom/point.go:140-143 | one more scaling multiplies by one more power of the factor |
| GeomPoint.ApplyNScaling | geom/segment_list.go:51-55 | a point listed n times in a scaled collection is multiplied by the n-th powers of the factors |
| GeomPoint.Point.constructor | geom/point.go:17-19 | NewPoint stores x and y |
| GeomPoint.Point.Coords | geom/point.go:84-86 | returns the point's own X and Y, in that order |
| GeomPoint.Point.Translate | geom/point.go:134-137 | X and Y move by x and y in place |
| GeomPoint.Point.Scale | geom/point.go:140-143 | X and Y are multiplied by their factors in place |
| GeomPoint.Point.UniScale | geom/point.go:146-149 | both coordinates are multiplied by the one factor in place |
| GeomPoint.Point.Scaled | geom/point.go:152-154 | a fresh point holding the scaled coordinates; the receiver is not changed |
| GeomPoint.Point.UniScaled | geom/point.go:157-159 | a fresh point scaled equally on both axes; the receiver is not changed |
| GeomPoint.Count | geom/segment_list.go:44-48 | a point object occurs in no more slots than there are, and in none exactly when it is not listed |
| GeomPoint.CountAppend | geom/segment_list.go:44-48 | the slots of two collections together hold a point as often as each does |
| GeomPoint.CountSmall | geom/segment.go:152-157 | the two endpoint slots of a segment (three of a triangle) hold a point once per slot it fills |
| GeomPoint.Values | geom/segment_list.go:44-48 | the snapshot gives every listed point object its current coordinates |
| GeomPoint.PairTransformed | geom/segment.go:114-157 | transforming a segment's two slots moves two distinct endpoints once each, and an endpoint shared by both slots twice |
| GeomPoint.ApplyNAdd | geom/segment_list.go:44-48 | m transforms followed by n more are m + n transforms |
| GeomPoint.TransformedStep | geom/segment_list.go:44-48 | a loop step that transforms one element's slots and leaves other points alone extends "each point moved once per slot done" to the slots done plus that element's |
| GeomPoint.TransformPoint | geom/pointlist.go:201-205 | transforming one listed point once extends "each point moved once per slot done" by that slot |
| GeomPoint.CentreFixed | geom/segment.go:122-127 | scaling from a centre leaves the centre where it is, however often it is applied |
| GeomPoint.LerpPointEnds | geom/point.go:22-32 | LerpPoint gives p0 at t = 0 and p1 at t = 1 and stays put between equal points; MidPoint is the coordinate average, equally far from both ends |
| GeomPoint.LerpPoint | geom/point.go:27-32 | the point at fraction t from p0 to p1; LerpPointEnds proves its ends |
| GeomPoint.MidPoint | geom/point.go:22-24 | the midpoint; LerpPointEnds proves it is the coordinate average, equally far from both ends |
| GeomPoint.ScaleAboutMidPoint | geom/segment.go:130-134 | scaling two points about their midpoint leaves the midpoint where it was |
| GeomPoint.CubicWeights | geom/point.go:109-119 | the four cubic weights sum to one for every t |
| GeomPoint.BezierEnds | geom/point.go:109-119 | BezierPoint gives p0 at t = 0 and p3 at t = 1, and the single point when all four coincide |
| GeomPoint.BezierPoint | geom/point.go:109-119 | the cubic Bezier point at t; BezierEnds proves it starts at p0, ends at p3 and is fixed when the points coincide |
| GeomPoint.QuadraticEnds | geom/point.go:122-131 | QuadraticPoint gives p0 at t = 0 and p2 at t = 1, and the single point when all three coincide |
| GeomPoint.QuadraticPoint | geom/point.go:122-131 | the quadratic curve point at t; QuadraticEnds proves it starts at p0, ends at p2 and is fixed when the points coincide |
| GeomPoint.ClockwiseSymmetries | geom/point.go:170-172 | Clockwise is unchanged by rotating its three points, cannot hold in both orders, and never holds when two of the points are equal |
| GeomPoint.Clockwise | geom/point.go:170-172 | the orientation test; ClockwiseSymmetries proves it is invariant under rotation, antisymmetric and false for repeated points |
| GeomUtils.AreCloseMeaning | geom/utils.go:5-15 | AreClose is reflexive, symmetric and means a difference strictly below 1e-5, so it fails at exactly 1e-5 where the inclusive Equalish holds; IsCloseToOne and IsCloseToZero are AreClose to 1 and to 0 |
| GeomUtils.AreClose | geom/utils.go:13-15 | a difference below 1e-5; AreCloseMeaning proves it reflexive, symmetric and strict at 1e-5 |
| GeomUtils.IsCloseToOne | geom/utils.go:5-7 | AreClose to 1, as AreCloseMeaning states |
| GeomUtils.IsCloseToZero | geom/utils.go:9-11 | AreClose to 0, as AreCloseMeaning states |
| GeomUtils.TIsValidMeaning | geom/utils.go:17-19 | tIsValid holds exactly on [0, 1], both ends included |
| GeomUtils.TIsValid | geom/utils.go:17-19 | whether t is a valid curve parameter; TIsValidMeaning proves it holds exactly on [0, 1] |
| GeomUnique.UniqueByPrefix | geom/triangle_list.go:97-111 | what the walk keeps from a prefix of the input is a prefix of what it keeps from the whole |
| GeomUnique.UniqueByProperties | geom/triangle_list.go:95-113 | no kept element matches an earlier kept one, every kept element comes from the input, every input element is kept or matches a kept one, and no more are kept than given |
| GeomUnique.UniqueBySnoc | geom/triangle_list.go:100-110 | one more input element is kept exactly when nothing kept so far matches it |
| GeomUnique.UniqueByFirst | geom/pointlist.go:208-223 | the first input element is always kept |
| GeomUnique.UniqueByKeepsDistinct | geom/pointlist.go:208-223 | an input in which no element matches an earlier one comes back unchanged |
| GeomSegment.SegEqualsProperties | geom/segment.go:80-99 | Equals is reflexive and symmetric, ignores the direction of either segment, accepts endpoints off by exactly 1e-6 and rejects an endpoint off by 2e-6 on a non-degenerate segment |
| GeomSegment.Segment.constructor | geom/segment.go:17-22 | NewSegment makes two fresh, distinct endpoint points holding the given coordinates |
| GeomSegment.Segment.Equals | geom/segment.go:80-99 | true exactly when the endpoints agree within 1e-6 (inclusive) per coordinate in the same or the swapped order; the same-object shortcut changes no answer |
| GeomSegment.Segment.Scale | geom/segment.go:114-119 | each endpoint slot is scaled once, so a point that is both endpoints is scaled twice |
| GeomSegment.Segment.ScaleFrom | geom/segment.go:122-127 | each endpoint slot is scaled about (x, y), which stays fixed |
| GeomSegment.Segment.ScaleLocal | geom/segment.go:130-134 | both endpoints are scaled about the old midpoint, and the midpoint stays where it was |
| GeomSegment.Segment.UniScale | geom/segment.go:137-139 | Scale with one factor on both axes |
| GeomSegment.Segment.UniScaleFrom | geom/segment.go:142-144 | ScaleFrom with one factor on both axes |
| GeomSegment.Segment.Translate | geom/segment.go:152-157 | each endpoint slot is moved by (x, y) |
| GeomSegment.Segment.Copy | geom/segment.go:211-213 | a fresh segment with two fresh, distinct endpoints holding this segment's values |
| GeomSegment.Segment.Scaled | geom/segment.go:206-208 | a fresh segment whose endpoints are this one's scaled; the receiver is not changed |
| GeomSegment.Segment.ScaledFrom | geom/segment.go:211-215 | a fresh segment whose endpoints are this one's scaled about (x, y) |
| GeomSegment.Segment.UniScaled | geom/segment.go:225-229 | a fresh segment scaled by one factor on both axes |
| GeomSegment.Segment.UniScaledFrom | geom/segment.go:232-236 | as written: a fresh segment holding the receiver's unscaled endpoints, because the scaled copy is thrown away |
| GeomSegment.Segment.UniScaledFromIntended | geom/segment.go:232-236 | as intended: a fresh segment scaled about (x, y) by one factor on both axes |
| GeomSegment.Segment.Translated | geom/segment.go:246-250 | a fresh segment whose endpoints are this one's moved by (x, y) |
| GeomSegment.NewSegmentFromPoints | geom/segment.go:25-27 | a fresh segment with fresh, distinct endpoints holding p0's and p1's coordinates, sharing neither object |
| GeomSegment.ScaleMoves | geom/segment.go:232-236 | scaling about a centre by a factor other than 1 moves every coordinate off the centre |
| GeomSegment.UniScaledFromDiscrepancy | geom/segment.go:232-236 | for a scale other than 1 and an endpoint off the centre, the intended result differs from what is returned |
| GeomSegmentList.EndpointSlots | geom/segment_list.go:44-48 | a list of n segments has 2n endpoint slots |
| GeomSegmentList.SegVals | geom/segment_list.go:5 | one endpoint value per segment, in list order |
| GeomSegmentList.SegValsAre | geom/triangle_list.go:95-113 | segments holding the given values index by index have exactly those values |
| GeomSegmentList.EndpointSlotsPrefix | geom/segment_list.go:44-48 | the slots of the segments done so far are a prefix of the list's slots |
| GeomSegmentList.EndpointSlotsNext | geom/segment_list.go:44-48 | one more segment adds its own two endpoint slots, which are slots of the list |
| GeomSegmentList.TransformSegment | geom/segment_list.go:44-69 | transforming one listed segment adds its two slots to those moved, whatever points it shares with other segments |
| GeomSegmentList.SegmentList.constructor | geom/segment_list.go:8-10 | NewSegmentList is empty |
| GeomSegmentList.SegmentList.Add | geom/segment_list.go:13-15 | the segment itself, not a copy, is appended |
| GeomSegmentList.SegmentList.AddXY | geom/segment_list.go:18-20 | a fresh segment with exactly the given endpoints is appended after the unchanged old segments |
| GeomSegmentList.SegmentList.Translate | geom/segment_list.go:44-48 | the list is kept and every point is moved once per endpoint slot that holds it |
| GeomSegmentList.SegmentList.Scale | geom/segment_list.go:51-55 | the list is kept and every point is scaled once per endpoint slot that holds it |
| GeomSegmentList.SegmentList.ScaleFrom | geom/segment_list.go:65-69 | the list is kept and every point is scaled about the one fixed point once per slot that holds it |
| GeomTriangle.ContainsProperties | geom/triangle.go:198-207 | containment holds exactly when the three clockwise tests against AB, BC and CA agree, does not depend on which vertex is listed first, and holds for a vertex exactly when the triangle is not listed clockwise |
| GeomTriangle.TriContains | geom/triangle.go:198-207 | the containment test on coordinates; ContainsProperties proves it means the three clockwise tests agree and does not depend on the first vertex |
| GeomTriangle.TriEqualsReorderings | geom/triangle.go:210-228 | with a reflexive, symmetric point equality a triangle Equals each of the six orderings of its own vertices |
| GeomTriangle.TriEqualsSound | geom/triangle.go:210-228 | Equals only holds when every vertex of each triangle matches a vertex of the other, so a vertex moved off every other vertex (degenerate triangles included) makes them unequal |
| GeomTriangle.TriEquals | geom/triangle.go:210-228 | Equals on coordinates; TriEqualsReorderings proves every reordering is equal and TriEqualsSound that equality needs every vertex matched |
| GeomTriangle.TripleTransformed | geom/triangle.go:305-344 | three distinct vertices transformed once per slot have each moved exactly once |
| GeomTriangle.TranslationMoves | geom/triangle.go:414-418 | a non-zero x offset applied once or more moves a point, so the as-written Translated visibly changes its receiver |
| GeomTriangle.Triangle.constructor | geom/triangle.go:18-20 | NewTriangleFromPoints keeps the given point objects themselves |
| GeomTriangle.Triangle.Points | geom/triangle.go:170-172 | a new list holding the three vertex pointers, A, B, C |
| GeomTriangle.Triangle.Edges | geom/triangle.go:175-181 | three fresh segments on fresh points, holding AB, BC and CA in that order |
| GeomTriangle.Triangle.Contains | geom/triangle.go:198-207 | true exactly when the clockwise tests of p against AB, BC and CA are all true or all false |
| GeomTriangle.Triangle.Equals | geom/triangle.go:210-228 | true for the same object; with a reflexive point equality, true exactly when the vertex values are equal up to reordering as TriEquals matches them |
| GeomTriangle.Triangle.Translate | geom/triangle.go:340-344 | each vertex slot is moved once, so a point held by two vertices moves twice |
| GeomTriangle.Triangle.Scale | geom/triangle.go:305-309 | each vertex slot is scaled once |
| GeomTriangle.Triangle.UniScale | geom/triangle.go:325-327 | Scale with one factor for both axes |
| GeomTriangle.Triangle.Scaled | geom/triangle.go:378-382 | as written: a fresh triangle on the receiver's own three points, which are scaled in place, so the receiver is scaled too |
| GeomTriangle.Triangle.UniScaled | geom/triangle.go:399-401 | as written: Scaled with one factor, with the same sharing |
| GeomTriangle.Triangle.Translated | geom/triangle.go:414-418 | as written: a fresh triangle on the receiver's own points, which are moved in place, so the receiver moves too |
| GeomTriangle.Triangle.ScaledIntended | geom/triangle.go:377-382 | as the doc comment promises: a fresh triangle on fresh points holding the scaled vertices; the receiver is not changed |
| GeomTriangle.Triangle.TranslatedIntended | geom/triangle.go:413-418 | as the doc comment promises: a fresh triangle on fresh points holding the moved vertices; the receiver is not changed |
| GeomTriangle.NewTriangle | geom/triangle.go:23-25 | a fresh triangle on three fresh, distinct points holding the given coordinates |
| GeomTriangleList.VertexSlots | geom/triangle_list.go:25-29 | a list of n triangles has 3n vertex slots |
| GeomTriangleList.VertexSlotsNext | geom/triangle_list.go:25-71 | one more triangle adds its own three vertex slots, which are slots of the list |
| GeomTriangleList.VertexSlotsPrefix | geom/triangle_list.go:25-29 | the slots of the triangles done so far are a prefix of the list's slots |
| GeomTriangleList.TriVals | geom/triangle_list.go:5 | one vertex value per triangle, in list order |
| GeomTriangleList.AllEdges | geom/triangle_list.go:97-99 | three edges per triangle |
| GeomTriangleList.AllEdgesNext | geom/triangle_list.go:97-99 | one more triangle adds its own AB, BC, CA after the earlier edges |
| GeomTriangleList.AllEdgesPrefix | geom/triangle_list.go:97-111 | the edges of the first triangles come first, and every edge of every triangle is among all the edges |
| GeomTriangleList.EdgesDistinct | geom/triangle_list.go:100-110 | no edge Edges returns is Equals to an earlier returned edge |
| GeomTriangleList.EdgesCover | geom/triangle_list.go:95-113 | every edge of every triangle is Equals to some edge Edges returns |
| GeomTriangleList.EdgesOrder | geom/triangle_list.go:97-111 | the edges returned for the first i triangles are a prefix of those returned for all: first-occurrence order, triangles in list order, then AB, BC, CA |
| GeomTriangleList.TransformTriangle | geom/triangle_list.go:25-71 | transforming one listed triangle adds its three slots to those moved, whatever points it shares with other triangles |
| GeomTriangleList.TriangleList.constructor | geom/triangle_list.go:8-10 | NewTriangleList is empty |
| GeomTriangleList.TriangleList.Add | geom/triangle_list.go:13-15 | the triangle itself is appended |
| GeomTriangleList.TriangleList.Translate | geom/triangle_list.go:67-71 | the list is kept and every point is moved once per vertex slot that holds it |
| GeomTriangleList.TriangleList.Scale | geom/triangle_list.go:25-29 | the list is kept and every point is scaled once per vertex slot that holds it |
| GeomTriangleList.TriangleList.UniScale | geom/triangle_list.go:46-50 | the list is kept and every point is scaled by one factor once per vertex slot that holds it |
| GeomTriangleList.TriangleList.Edges | geom/triangle_list.go:95-113 | a fresh list whose edge values are the edges of all triangles in order with every edge Equals to an earlier one dropped |
| GeomTriangleList.AddSides | geom/triangle_list.go:99-110 | running the side loop over a triangle's sides turns the unique edges of the earlier triangles into the unique edges of those plus the sides in order (Edges passes the triangle's AB, BC, CA) |
| GeomTriangleList.AddSide | geom/triangle_list.go:100-109 | one turn of the side loop turns the unique edges of a prefix into the unique edges of that prefix plus this side |
| GeomTriangleList.AddIfNotFound | geom/triangle_list.go:100-109 | the side is appended, itself, exactly when no collected edge is Equals to it; otherwise nothing changes |
| GeomPointList.Vals | geom/pointlist.go:14 | one coordinate pair per slot, in list order |
| GeomPointList.KeptVals | geom/pointlist.go:129-137 | the kept coordinates are exactly the passing ones of the input, never more of them |
| GeomPointList.KeptByNext | geom/pointlist.go:131-135 | one more loop step appends that slot's point exactly when it passes |
| GeomPointList.KeptByValues | geom/pointlist.go:129-137 | the points Cull keeps hold exactly the kept coordinates, in order, and are points of the receiver |
| GeomPointList.KeptSplit | geom/pointlist.go:192-198 | the points that pass and those that fail together account for every point |
| GeomPointList.LexTotalOrders | geom/pointlist.go:244-283 | the x-then-y and y-then-x comparisons are total orders that rank two points equal only when they coincide |
| GeomPointList.SortedXY | geom/pointlist.go:244-262 | the SortXY result is ordered by x then y, is a permutation of the coordinates, and is the only such permutation |
| GeomPointList.SortedYX | geom/pointlist.go:265-283 | the SortYX result is ordered by y then x, is a permutation of the coordinates, and is the only such permutation |
| GeomPointList.UniquedDiscrepancy | geom/pointlist.go:371-375 | for a point listed twice Unique keeps one copy, so the full-length list Uniqued returns is not Unique's result |
| GeomPointList.PointList.constructor | geom/pointlist.go:21-23 | NewPointList is empty |
| GeomPointList.PointList.Add | geom/pointlist.go:85-87 | the point itself, not a copy, is appended |
| GeomPointList.PointList.AddXY | geom/pointlist.go:90-92 | a fresh point with the given coordinates is appended after the unchanged old points |
| GeomPointList.PointList.Insert | geom/pointlist.go:95-103 | an index outside [0, len) is the error "index out of range" and changes nothing, so Insert never appends; otherwise the point goes at index and the later points move up |
| GeomPointList.PointList.First | geom/pointlist.go:106-108 | the first point, at index 0, a point of the list; an empty list panics in the source |
| GeomPointList.PointList.Last | geom/pointlist.go:111-113 | the last point, at index len - 1, a point of the list |
| GeomPointList.PointList.Get | geom/pointlist.go:117-122 | a point of the list for every index in [-len, len); other indices panic in the source |
| GeomPointList.PointList.GetNegative | geom/pointlist.go:106-122 | Get(i - len) and Get(i) are both slot i, Get(0) is First and Get(-1) is Last |
| GeomPointList.PointList.Cull | geom/pointlist.go:129-137 | the receiver keeps exactly its own points that pass, in order, holding the passing coordinates |
| GeomPointList.PointList.Clone | geom/pointlist.go:76-82 | a fresh list of fresh, pairwise distinct points holding the same coordinates in the same order |
| GeomPointList.PointList.Culled | geom/pointlist.go:308-312 | a fresh list holding copies of the passing points, in order |
| GeomPointList.PointList.Split | geom/pointlist.go:192-198 | the receiver keeps its passing points; copies of the failing ones come back in a fresh list; both in the original order |
| GeomPointList.PointList.Translate | geom/pointlist.go:201-205 | every point moves by (x, y) once per slot that holds it |
| GeomPointList.PointList.Unique | geom/pointlist.go:208-223 | a fresh list of the receiver's own points holding the first occurrence of each coordinate pair up to peq, no two matching; the receiver is not changed |
| GeomPointList.PointList.Uniqued | geom/pointlist.go:371-375 | as written: a fresh list holding every coordinate pair, duplicates included, since the Unique result is dropped |
| GeomPointList.PointList.UniquedIntended | geom/pointlist.go:371-375 | as intended: a fresh list of copies with later duplicates removed, as Unique removes them |
| GeomPointList.PointList.SortXY | geom/pointlist.go:244-262 | a fresh list of copies ordered by x then y, a permutation of the receiver's coordinates; the receiver is not changed |
| GeomPointList.PointList.SortYX | geom/pointlist.go:265-283 | a fresh list of copies ordered by y then x, a permutation of the receiver's coordinates |
| GeomPointList.FromValues | geom/pointlist.go:76-82 | a fresh list of fresh points holding the given coordinates in order |
| GeomPolygon.NextIndex | geom/polygon.go:42-44 | (i + 1) mod n is the next index, wrapping to 0 after the last |
| GeomPolygon.SidesClosed | geom/polygon.go:39-46 | there are as many sides as vertices, side i starts at vertex i and ends where side i + 1 starts, and the last side closes the chain at vertex 0 |
| GeomPolygon.SumsTranslated | geom/polygon.go:54-64 | translating every vertex adds n times the offset to the coordinate sums |
| GeomPolygon.SumsConstant | geom/polygon.go:54-64 | the sums of n copies of one point are n times its coordinates |
| GeomPolygon.MeanTranslated | geom/polygon.go:54-64 | the mean moves with a translation of every vertex |
| GeomPolygon.MeanConstant | geom/polygon.go:54-64 | the mean of copies of one point is that point |
| GeomPolygon.VerticesEqualProperties | geom/polygon.go:83-97 | the pairwise vertex comparison is reflexive and symmetric when the point equality is, and does not accept a rotation of the same vertices |
| GeomPolygon.Polygon.constructor | geom/polygon.go:16-23 | the polygon literal holds the vertices and no sides yet |
| GeomPolygon.Polygon.MakeSides | geom/polygon.go:39-46 | one side per vertex is appended, side i joining vertex i to vertex (i + 1) mod n; the vertices are kept |
| GeomPolygon.Polygon.Centroid | geom/polygon.go:54-64 | the loop returns the arithmetic mean of the vertices |
| GeomPolygon.Polygon.Equals | geom/polygon.go:83-97 | true exactly for the same object or the same vertex count with the vertices pairwise equal in order |
| GeomPolygon.NewPolygon | geom/polygon.go:15-25 | fewer than 3 vertices is the fatal error "A Polygon needs 3 or more vertices."; otherwise a fresh polygon holding the vertices and their closed chain of sides |
| GeomPolygon.CoordsToVertices | geom/polygon.go:31-34 | half as many vertices as coordinates, vertex k being (coords[2k], coords[2k+1]) |
| GeomPolygon.NewPolygonFromCoords | geom/polygon.go:27-37 | an odd count is the fatal error "Polygon needs an even number of coords."; an even count below 6 fails as NewPolygon does; otherwise vertex k is (coords[2k], coords[2k+1]) with its closed chain of sides |
| GeomVector.VectorBetween | geom/vector.go:17-22 | the vector carries (x0, y0) onto (x1, y1) |
| GeomVector.VectorFromPoints | geom/vector.go:25-30 | VectorBetween of the two points' coordinates, so translating p0 by it gives p1 |
| GeomVector.Abs | geom/vector.go:99-101 | both components non-negative with their magnitudes kept |
| GeomVector.Max | geom/vector.go:104-106 | each component is the larger of itself and the scalar |
| GeomVector.Min | geom/vector.go:109-111 | each component is the smaller of itself and the scalar |
| GeomVector.VectorAlgebra | geom/vector.go:33-56 | Add and Subtract undo each other and Add commutes; DotProduct is symmetric; CrossProduct is antisymmetric and zero for a vector with itself |
| GeomVector.Add | geom/vector.go:33-38 | componentwise sum; VectorAlgebra proves it commutes and Subtract undoes it |
| GeomVector.Subtract | geom/vector.go:41-46 | componentwise difference; VectorAlgebra proves it undoes Add |
| GeomVector.DotProduct | geom/vector.go:49-51 | the dot product; VectorAlgebra proves it symmetric and VectorScaling that it scales with a factor |
| GeomVector.CrossProduct | geom/vector.go:54-56 | the 2D cross product; VectorAlgebra proves it antisymmetric and zero for a vector with itself, VectorScaling that it scales and ignores added multiples of the other vector |
| GeomVector.VectorScaling | geom/vector.go:49-81 | Scaled multiplies both products by the factor, and adding a multiple of b leaves the cross product with b unchanged |
| GeomVector.Scaled | geom/vector.go:79-81 | the vector times a factor; VectorScaling proves both products scale by that factor |
| GeomLine.NewLine | geom/line.go:14-19 | the line holds exactly the given endpoint coordinates |
| GeomLine.NewLineFromPoints | geom/line.go:22-24 | the line holds copies of the two points' coordinates |
| GeomLine.NewLineFromSegment | geom/line.go:27-29 | the line holds copies of the segment's endpoint coordinates |
| GeomLine.Perpendicular | geom/line.go:62-66 | starts at p; its direction is orthogonal to the line's, as long, and a quarter turn from it |
| GeomLine.HitSegment | geom/line.go:32-34 | the segment is SegmentOnLine's bounded first operand: a miss is (0, 0, false), parallel directions miss, and a hit lies on the segment and on the line |
| GeomLine.HitLine | geom/line.go:37-39 | LineOnLine: misses exactly when the direction cross product is within 1e-5 of 0, and a hit lies on both lines |
| GeomLine.HitLineSymmetric | geom/line.go:37-39 | whether two lines hit does not depend on their order, and a line never hits itself or its reversal |
| GeomCollision.PointInPolygon | geom/collision.go:21-24 | always false |
| GeomCollision.SegmentOnLine | geom/collision.go:31-45 | a miss is (0, 0, false), and parallel directions always miss |
| GeomCollision.SegmentOnSegment | geom/collision.go:48-63 | a miss is (0, 0, false), and parallel directions always miss |
| GeomCollision.LineOnLine | geom/collision.go:66-76 | hits exactly when the directions are not parallel within 1e-5; a miss is (0, 0, false) |
| GeomCollision.CrossingOnLine | geom/collision.go:34-44 | the point at parameter t1 on the first operand lies on the second line |
| GeomCollision.CrossingPoint | geom/collision.go:34-44 | the point at t1 on the first operand is the point at t2 on the second |
| GeomCollision.MeetOnBothAxes | geom/collision.go:34-44 | two lines with a non-zero cross product meet on both axes at the parameters n1 / c and n2 / c |
| GeomCollision.AxisMeet | geom/collision.go:38-41 | on one axis the two parametrised points meet when the Cramer numerators satisfy the crossing equation |
| GeomCollision.OnSegmentAt | geom/collision.go:42-60 | a point at a parameter in [0, 1] is on the segment and inside its bounding box |
| GeomCollision.SegmentOnLineMeaning | geom/collision.go:31-45 | hits exactly when the directions are not parallel and t1 is in [0, 1]; the point is on the segment and on the line |
| GeomCollision.SegmentOnSegmentMeaning | geom/collision.go:48-63 | hits exactly when the directions are not parallel and both t1 and t2 are in [0, 1]; the point is on both segments, so inside the first one's bounding box |
| GeomCollision.LineOnLineMeaning | geom/collision.go:66-76 | a hit is the point at the unrestricted t1 on the first line, and it lies on both lines |
| GeomCollision.OnOwnLine | geom/collision.go:73-75 | every point at a parameter along a line is on that line |
| GeomCollision.RectOnRectMeaning | geom/collision.go:87-92 | RectOnRect is symmetric, holds for two rectangles sharing a point, and for non-negative sizes the overlap contains the corner of the larger x and larger y |
| GeomCollision.PointInRect | geom/collision.go:11-13 | a point inside a rectangle or on its edges; RectOnRectMeaning proves a point in two rectangles makes them overlap |
| GeomCollision.RectOnRect | geom/collision.go:87-92 | whether two rectangles overlap; RectOnRectMeaning proves it symmetric, implied by a shared point, and for non-negative sizes witnessed by a shared corner |
| GeomCollision.SegmentOnRectMeaning | geom/collision.go:96-114 | when it holds, some point is on the segment and on one of the four sides of the rectangle |
| GeomCollision.SegmentOnRect | geom/collision.go:96-114 | whether a segment crosses a side of a rectangle; SegmentOnRectMeaning proves a hit has a point on the segment and on a side |
| GeomRect.NewRect | geom/rect.go:10-17 | stores X, Y, W and H as given |
| GeomRect.Contains | geom/rect.go:20-22 | PointInRect: inside or on any of the four edges |
| GeomRect.HitRect | geom/rect.go:25-27 | RectOnRect: misses exactly when one rectangle lies wholly to one side of the other; a point both contain makes them hit |
| GeomRect.HitSegment | geom/rect.go:30-32 | SegmentOnRect on the segment's two endpoints: a hit means some point is on the segment and on a side of the rectangle |
| GeomRect.RectProperties | geom/rect.go:20-27 | HitRect is symmetric; a rectangle of non-negative size contains (X, Y) and (X+W, Y+H) and hits itself; overlapping rectangles of non-negative size share a point |
| GeomInterval.NewOpenInterval | geom/interval.go:12-20 | fails with the fatal message exactly when start > end; otherwise holds the two ends and has a non-negative length |
| GeomInterval.Length | geom/interval.go:22-24 | End lies Length past Start, and the length is non-negative exactly for an interval the constructor accepts |
| GeomInterval.Contains | geom/interval.go:26-28 | strictly between the ends, both ends excluded |
| GeomInterval.OverlapsProperties | geom/interval.go:30-35 | Overlaps is symmetric, holds for intervals whose ends are pairwise close even when neither contains an end of the other, and otherwise implies the larger start is at most the smaller end |
| GeomInterval.Overlaps | geom/interval.go:30-35 | whether two open intervals overlap; OverlapsProperties proves it symmetric, true for nearly equal intervals, and otherwise a real overlap |
| GeomInterval.ComputeOverlap | geom/interval.go:37-42 | as written: nil exactly when the intervals do not overlap; otherwise [max of starts, min of ends], or the constructor's fatal exit |
| GeomInterval.ComputeOverlapFatal | geom/interval.go:37-42 | the fatal exit needs ends that are pairwise close, and (0, 1e-6) with (4e-6, 5e-6) reaches it |
| GeomInterval.ComputeOverlapIntended | geom/interval.go:37-42 | corrected: a valid interval inside both inputs, whose points are exactly those both contain, present exactly when they overlap with the larger start at most the smaller end |
| GeomInterval.ComputeOverlapAgrees | geom/interval.go:37-42 | wherever the written version does not exit it gives the corrected result |
| GeomSize.NewSize | geom/size.go:9-14 | stores Width and Height as given |
| GeomSize.Equals | geom/size.go:20-25 | true exactly when both dimensions are AreClose |
| GeomSize.EqualsProperties | geom/size.go:20-25 | Equals is reflexive and symmetric, holds for sizes half the tolerance apart and fails for sizes the tolerance apart |
| GeomAffine.Identity | geom/affine.go:25-27 | maps every point to itself |
| GeomAffine.MakeScaleTransform | geom/affine.go:29-35 | leaves the centre fixed and moves every point as scaling about that centre does |
| GeomAffine.ApplyToSegment | geom/affine.go:55-60 | each endpoint is mapped by ApplyToPoint, and the identity leaves the segment as it was |
| GeomAffine.ThenComposesX | geom/affine.go:78-87 | the x coordinate of a.Then(b) is b's x of a's image |
| GeomAffine.ThenComposesY | geom/affine.go:78-87 | the y coordinate of a.Then(b) is b's y of a's image |
| GeomAffine.ThenComposes | geom/affine.go:48-87 | a.Then(b) applied to p is b applied to a applied to p |
| GeomAffine.ApplyToPoint | geom/affine.go:48-53 | the image of a point; ThenComposes and InverseUndoes state how it composes and is undone |
| GeomAffine.Then | geom/affine.go:78-87 | the product of two transforms; ThenComposes proves applying it is applying a, then b, and ThenIdentity that the identity is neutral |
| GeomAffine.ThenIdentity | geom/affine.go:78-87 | the identity is neutral on either side of Then |
| GeomAffine.InverseX | geom/affine.go:101-111 | the x of the inverse image, times the determinant, is the eliminated combination |
| GeomAffine.InverseY | geom/affine.go:101-111 | the y of the inverse image, times the determinant, is the eliminated combination |
| GeomAffine.SolveX | geom/affine.go:101-111 | eliminating y from the image recovers x when the determinant is non-zero |
| GeomAffine.SolveY | geom/affine.go:101-111 | eliminating x from the image recovers y when the determinant is non-zero |
| GeomAffine.InverseUndoesX | geom/affine.go:101-111 | the x coordinate comes back through Inverse |
| GeomAffine.InverseUndoesY | geom/affine.go:101-111 | the y coordinate comes back through Inverse |
| GeomAffine.InverseUndoes | geom/affine.go:101-111 | for sx*sy - shx*shy != 0, Inverse maps ApplyToPoint(p) back to p |
| GeomAffine.Recombine | geom/affine.go:101-111 | mapping the eliminated solution forward again gives back the offsets |
| GeomAffine.InverseIsUndone | geom/affine.go:101-111 | for a non-singular transform, ApplyToPoint maps the inverse image of q back to q |
| GeomAffine.Inverse | geom/affine.go:101-111 | the inverse transform; InverseUndoes and InverseIsUndone prove it undoes ApplyToPoint in both orders for a non-singular transform |
| GeomAffine.EqualsAsWritten | geom/affine.go:89-99 | Equals as the source writes it; EqualsIgnoresTx proves it holds exactly when sx, sy, shx, shy and ty are within the tolerance, whatever tx is |
| GeomAffine.EqualsIgnoresTx | geom/affine.go:89-99 | for all transforms: Equals as written holds exactly when the five coefficients other than tx are close, and replacing the tx of either transform by any value never changes its answer |
| GeomAffine.EqualsDiscrepancy | geom/affine.go:89-99 | as written, the identity Equals a translation by 1 along x, which moves the origin; the corrected comparison tells them apart |
| GeomAffine.EqualsIntended | geom/affine.go:89-99 | Equals with tx compared as evidently intended; EqualsIntendedProperties states its meaning |
| GeomAffine.EqualsIntendedProperties | geom/affine.go:89-99 | the corrected Equals is reflexive and symmetric, implies the written one, and holds only for transforms sending the origin to points within the tolerance on both axes |
| GeomAffine.MapVertices | geom/affine.go:64-66 | the images of the vertices, one per vertex, in order |
| GeomAffine.ApplyToPolygon | geom/affine.go:62-68 | a fresh polygon on the images of the vertices in order, with the closed chain of sides; fewer than 3 vertices fails as NewPolygon does |
| GeomBezier.BezierCurve.constructor | geom/bezier.go:19-27 | keeps the four control points, sets segCount to 200 and builds a path of 201 points on the curve |
| GeomBezier.BezierCurve.MakeSegPath | geom/bezier.go:30-38 | a fresh path of segCount + 1 points, point i being the curve at i / segCount; controls and count are kept |
| GeomBezier.BezierCurve.Point | geom/bezier.go:41-43 | a fresh point holding the curve at t for the current control points |
| GeomBezier.BezierCurve.SetSegmentCount | geom/bezier.go:46-49 | stores the count, which GetSegmentCount then returns, and rebuilds the path with count + 1 points on the curve |
| GeomBezier.BezierCurve.GetSegmentCount | geom/bezier.go:52-54 | the stored count |
| GeomBezier.BezierCurve.GetPath | geom/bezier.go:57-59 | the stored path itself, not a copy |
| GeomBezier.BezierCurve.PathEnds | geom/bezier.go:30-38 | a fitted path with at least one segment starts at P0 and ends at P3 |
| DelaunayModel.BadOfMembers | delaunay/delaunay.go:33-42 | a triangle is selected as bad exactly when it is listed and its circumcircle contains the point |
| DelaunayModel.BadOf | delaunay/delaunay.go:33-42 | the bad triangles for a point; BadOfMembers proves they are exactly the listed ones whose circumcircle holds the point |
| DelaunayModel.BadOfAppend | delaunay/delaunay.go:33-42 | the selection keeps list order: selecting over a concatenation is the concatenation of the selections |
| DelaunayModel.KeepMembers | delaunay/delaunay.go:116-127 | an edge of a triangle is kept exactly when no other triangle has an edge Segment.Equals accepts against it |
| DelaunayModel.CandidatesSound | delaunay/delaunay.go:53-63 | every candidate edge is an edge of one of the bad triangles that no other bad triangle shares |
| DelaunayModel.CandidatesComplete | delaunay/delaunay.go:53-63 | every unshared edge of a bad triangle is a candidate |
| DelaunayModel.PolygonProperties | delaunay/delaunay.go:53-73 | the cavity polygon holds only unshared edges of bad triangles, no two of its edges are Equals in either order, and every unshared edge of a bad triangle is in it up to Equals |
| DelaunayModel.PolygonOf | delaunay/delaunay.go:53-73 | the cavity polygon; PolygonProperties proves it holds, up to Equals, exactly the unshared edges of the bad triangles, none twice |
| DelaunayModel.RemoveFirstAt | delaunay/delaunay.go:96-104 | when position i holds the first triangle equal to t, removeTriangle deletes exactly position i |
| DelaunayModel.RemoveFirstNone | delaunay/delaunay.go:96-104 | with no triangle equal to t the list comes back unchanged |
| DelaunayModel.RemoveFirstProperties | delaunay/delaunay.go:96-104 | removeTriangle keeps only listed triangles, keeps every triangle not equal to t, and is one shorter exactly when some triangle equals t |
| DelaunayModel.RemoveFirst | delaunay/delaunay.go:96-104 | removeTriangle; RemoveFirstProperties proves it keeps every triangle not equal to t and is one shorter exactly when some triangle equals t |
| DelaunayModel.CullAllProperties | delaunay/delaunay.go:45-50 | culling keeps only listed triangles, keeps every triangle equal to no bad one, and removes at most one per bad triangle |
| DelaunayModel.CullAll | delaunay/delaunay.go:45-50 | cullBadTriangles; CullAllProperties proves it keeps triangles equal to no bad one and removes at most one per bad triangle |
| DelaunayModel.FanProperties | delaunay/delaunay.go:107-113 | one new triangle per polygon edge, in order, each with that edge as its first edge and the point as third vertex, with distinct fresh identities |
| DelaunayModel.Fan | delaunay/delaunay.go:107-113 | addTriangles; FanProperties proves one new triangle per polygon edge, joined to the point, with fresh identities |
| DelaunayModel.BoundsContain | delaunay/delaunay.go:130-143 | every point lies within the accumulated bounding box |
| DelaunayModel.SuperTriContainsBox | delaunay/delaunay.go:144-149 | every point of a box is inside the triangle getSuperTri builds around it |
| DelaunayModel.SuperTriContainsAll | delaunay/delaunay.go:130-150 | every input point is inside the super-triangle of the input |
| DelaunayModel.SuperTri | delaunay/delaunay.go:130-150 | getSuperTri; SuperTriContainsAll proves every input point lies inside it |
| DelaunayModel.RemovalsMembers | delaunay/delaunay.go:77-84 | the removal list holds only listed triangles, and holds every triangle with a vertex equal to a super-triangle vertex |
| DelaunayModel.HitsMembers | delaunay/delaunay.go:79-83 | a triangle adds only itself to the removal list, and does so when one of its vertices matches |
| DelaunayModel.SweepFromKeeps | delaunay/delaunay.go:86-91 | a sweep only deletes, and never raises the number of triangles equal to any given one above one |
| DelaunayModel.SweepFromClears | delaunay/delaunay.go:86-91 | with at most one triangle equal to t, a sweep leaves none |
| DelaunayModel.SweepAllClears | delaunay/delaunay.go:85-92 | the sweeps only delete, and, when each removal entry has at most one equal triangle, leave none equal to any entry |
| DelaunayModel.SweepAllKeepsOne | delaunay/delaunay.go:85-92 | the sweeps keep at most one triangle equal to any given one |
| DelaunayModel.RemoveOuterClean | delaunay/delaunay.go:76-93 | under the proviso that no two triangles equal the same removal entry, removeOuter keeps only listed triangles and none with a vertex equal to a super-triangle vertex |
| DelaunayModel.RemoveOuterOf | delaunay/delaunay.go:76-93 | removeOuter; RemoveOuterClean proves that, when no two triangles match one removal entry, no remaining triangle touches a super-triangle vertex |
| DelaunayModel.SweepSkipsNeighbour | delaunay/delaunay.go:86-91 | without the proviso a triangle equal to the entry survives: deleting one moves its equal neighbour into the slot the index then passes |
| DelaunayModel.RunFresh | delaunay/delaunay.go:14-21 | the passes never lower the next identity and keep every listed identity below it |
| DelaunayModel.RemoveFirstDistinct | delaunay/delaunay.go:96-104 | removeTriangle never lists one object twice |
| DelaunayModel.CullAllDistinct | delaunay/delaunay.go:45-50 | cullBadTriangles never lists one object twice |
| DelaunayModel.StepDistinct | delaunay/delaunay.go:15-20 | one point's pass keeps the objects distinct and their identities below the next unused one |
| DelaunayModel.RunDistinct | delaunay/delaunay.go:14-21 | Triangulate's passes never list one object twice |
| DelaunayModel.TriangulateOf | delaunay/delaunay.go:11-24 | Triangulate; RunDistinct proves its passes never list one triangle object twice |
| Delaunay.GetBadTriangles | delaunay/delaunay.go:33-42 | the loop computes the bad triangles, in list order |
| Delaunay.HasSharedEdge | delaunay/delaunay.go:116-127 | true exactly when a triangle other than t, by identity, has an edge Equals to e |
| Delaunay.AddEdgeToPolygon | delaunay/delaunay.go:66-73 | the list unchanged when one of its edges Equals the new edge, the list with the edge appended otherwise |
| Delaunay.AddUnsharedEdges | delaunay/delaunay.go:55-60 | adds the unshared edges of one bad triangle, keeping the polygon free of Equals duplicates |
| Delaunay.GetPolygon | delaunay/delaunay.go:53-63 | the loops compute the cavity polygon whose properties PolygonProperties states |
| Delaunay.RemoveTriangle | delaunay/delaunay.go:96-104 | the loop deletes the first triangle equal to t, or nothing |
| Delaunay.CullBadTriangles | delaunay/delaunay.go:45-50 | the loop removes one triangle per bad triangle in turn, as CullAllProperties describes |
| Delaunay.AddTriangles | delaunay/delaunay.go:107-113 | appends the fan of new triangles in polygon order and advances the next identity by one per edge |
| Delaunay.GetSuperTri | delaunay/delaunay.go:130-150 | the triangle built around the accumulated bounding box, which contains every input point |
| Delaunay.Contains | delaunay/delaunay.go:152-159 | true exactly when the triangle contains every point |
| Delaunay.CollectRemovals | delaunay/delaunay.go:77-84 | the loop builds the removal list, one entry per matching vertex |
| Delaunay.Sweep | delaunay/delaunay.go:86-91 | the inner splice loop, including its skip after a deletion |
| Delaunay.RemoveOuter | delaunay/delaunay.go:76-93 | the two loops compute removeOuter, whose result RemoveOuterClean describes |
| Delaunay.Triangulate | delaunay/delaunay.go:11-24 | starts from the super-triangle, runs each point's pass and removes the outer triangles; RunDistinct shows no object is listed twice |

## Left out

- Randomness: random/random.go, geom/poisson.go, List.Shuffle and GetRandom, Palette.GetRandom, the Randomize and Randomized methods, and RandomSize all depend on PRNG state.
- I/O: params/params.go, bltime/bltime.go, bllog/bllog.go, Bitmap.SaveImage and the `os.WriteFile` that ends EncodeBmp. These are file, clock and log I/O; EncodeBmp is modelled up to the bytes it would write.
- BitmapEncoder.EncodeBmp: the conversion `uint8(p*255)` of a channel value to a byte is the parameter `toByte`, because float-to-byte rounding is outside the model.
- Functions built on sqrt, trigonometry, pow or log:
  - Distance, Magnitude, Length, Normalized, Project, ClosestPoint, DistanceTo, the Angle functions, and every Rotate and Rotated method;
  - MakeRotationTransform;
  - the triangle centres, Area, Altitude, Bisect, and the equilateral and isosceles constructors;
  - CircleToLine and PointDistanceToSegment;
  - the HSV, HSL and CMYK conversions, Luminance and ColorDiff;
  - Quantize, RoundTo, MapLinExp, MapExpLin, Gamma, sdf/sdf.go and geom/poly.go.
  The circumcircle test the triangulation uses is the parameter `inCircle`.
- geom/circle.go and geom/circle_list.go use hypot-based tests and call Circle methods that are defined nowhere.
- Duplicate definitions in one package: geom/triangles.go, geom/geom.go, the PointList and ConvexHull copy in geom/point.go, and the tIsValid copy in geom/vector.go. One definition of each is modelled: geom/triangle.go, geom/collision.go, geom/pointlist.go and geom/utils.go.
- ConvexHull relies on pointer equality, and its termination cannot be shown for collinear or duplicate input.
- Rendering through an unseen drawing library: localtest/main.go, Polygon.Draw, Polygon.DrawVertices and Polygon.Contains.
- The `String` methods (fmt formatting).
- delaunay TriangulateEdges calls geom.GetEdges, which is defined nowhere.
- Segment.HitSegment and Segment.HitLine are not modelled. They only forward to the collision tests, which GeomCollision models.
- AffineTransform.ApplyToRect and AffineTransform.ApplyToCircle go through Rect.ToPolygon and Circle.ToPolygon, which are not part of this model (the circle's is trigonometric). ApplyToPolygon, which they call, is modelled.
- GeomRect.HitSegment and GeomAffine.ApplyToSegment: the source reads segment fields that do not exist (`s.X0`, `s.Start`, `s.End`). Both are modelled on the segment's two endpoints, as they evidently intend.
- GeomPolygon.Polygon.constructor: polygon.go:44 passes Points to NewSegment, whose parameters are coordinates. A side is modelled as its two endpoints.
- Delaunay.AddTriangles: delaunay.go:109 reads `e.X0` and the like, which Segment does not have. These are taken as the edge's endpoint coordinates.
- Some methods call Point.ScaleFrom, which is defined nowhere in the source:
  - Triangle.ScaleFrom, Triangle.UniScaleFrom, Triangle.ScaledFrom and Triangle.UniScaledFrom;
  - PointList.ScaleFrom.
  The Segment and SegmentList versions do their own arithmetic, and they are modelled.
- Some methods scale about Triangle.Centroid, which is left out with the other triangle centres:
  - Triangle.ScaleLocal, Triangle.UniScaleLocal, Triangle.ScaledLocal and Triangle.UniScaledLocal.
- Segment.ScaledLocal, Segment.UniScaleLocal and Segment.UniScaledLocal are not modelled. They repeat the ScaleLocal and Scaled patterns that are modelled.
- Bezier LinearPoints and LerpPoint go through PointList.Interpolate, which measures the path by distances (square roots). The SlopeAt functions use AngleTo (trigonometry). None of them is modelled.
- Type parameters:
  - The `cmp.Ordered`, `comparable` and `any` type parameters of the containers are instantiated at `int`.
  - The generic Abs, Min and Max are instantiated at `int` and at `real`.
- The Go library sorts (`slices.Sort`, `slices.SortFunc`, `sort.Sort`) are modelled by the sorted permutation an insertion sort yields, not by their own algorithms or their swap order.
- Palette luminance is colour arithmetic outside the model, so Palette sorting takes it as the key function `lum`.
- CollectionsLinkedList.LinkedList: the list is the sequence of values from Head to Tail. The ListNode objects and their Next and Prev links are abstracted: a node is its position in that sequence, and the walks of Insert and GetValueAt step through positions. So link consistency (Head.Prev and Tail.Next nil, n.Next.Prev == n) is not stated.
- GeomPointList.PointList.Cull and GeomPointList.PointList.Split: the test function sees a point's coordinates, not the Point object.
- GeomPolygon.Polygon.Centroid: requires at least one vertex, because the source divides by the vertex count. Every polygon NewPolygon builds has at least three.
- GeomAffine.Inverse requires sx·sy − shx·shy ≠ 0, because the source divides by it.
- GeomBezier.BezierCurve.MakeSegPath and GeomBezier.BezierCurve.SetSegmentCount require a non-zero segment count, because the source divides by it (0/0 at i = 0).
- CollectionsMinPQ.MinPQ.Min, CollectionsMinPQ.MinPQ.DelMin, CollectionsMaxPQ.MaxPQ.Max and CollectionsMaxPQ.MaxPQ.DelMax require a non-empty queue. On an empty one the source reads the stale slot pq[1] and DelMin and DelMax drive n to -1 (collections/minpq.go:37-48, and likewise in maxpq.go); that state is not modelled.
- DelaunayModel.SuperTri and Delaunay.GetSuperTri: on an empty point list the source's width and height, -MaxFloat64 - MaxFloat64, overflow to -Inf. The model computes them over the reals and stays finite, so that case does not match.
- Float equality with tolerance is modelled exactly over reals (`|a − b| < 1e-5` and the like). Rounding of float64 arithmetic is not modelled.

## Findings

| source | as written | input that shows it | evidently intended | confidence | as-written member | corrected member |
|---|---|---|---|---|---|---|
| blmath/math.go:198-202 | LCM divides by GCD(x, y), which is 0 when either argument is 0 | LCM(0, 5): GCD(0, 5) = 0, so the integer division panics | LCM(0, y) = 0, the usual convention, with \|x·y\| / GCD otherwise | not executed | BlMath.LcmAsWrittenPanicsOnZero | BlMath.Lcm |
| geom/segment.go:232-236 | UniScaledFrom calls ScaledFrom, drops its result, and returns an unscaled copy | scale 2 about (0, 0) of the segment (1, 0)-(2, 0) returns (1, 0)-(2, 0) | a copy scaled uniformly about the given point | not executed | GeomSegment.UniScaledFromDiscrepancy | GeomSegment.Segment.UniScaledFromIntended |
| geom/pointlist.go:371-375 | Uniqued calls Unique, drops its result, and returns a full clone | a list holding one point twice keeps both copies | a clone holding the first occurrence of each point only | not executed | GeomPointList.UniquedDiscrepancy | GeomPointList.PointList.UniquedIntended |
| geom/triangle.go:414-418 | Translated builds the copy from the receiver's own vertex pointers and translates it in place | Translated(1, 0) on any triangle also moves the receiver's vertices by 1 along x | a new triangle on new points, the receiver unchanged | not executed | GeomTriangle.TranslationMoves | GeomTriangle.Triangle.TranslatedIntended |
| geom/triangle.go:378-382 | Scaled builds the copy from the receiver's own vertex pointers and scales it in place | Scaled(2, 2) on a triangle with vertex (1, 0) also moves that vertex of the receiver to (2, 0) | a new triangle on new points, the receiver unchanged | not executed | GeomTriangle.Triangle.Scaled | GeomTriangle.Triangle.ScaledIntended |
| geom/affine.go:89-99 | Equals compares ty twice and never tx | the identity and the translation by tx = 1 compare Equal, although they move the origin differently | all six coefficients compared | not executed | GeomAffine.EqualsDiscrepancy | GeomAffine.EqualsIntendedProperties |
| geom/interval.go:37-42 | ComputeOverlap calls NewOpenInterval(max of starts, min of ends), which is fatal when that start exceeds that end; Overlaps accepts intervals whose ends are only pairwise close | (0, 1e-6) and (4e-6, 5e-6): they Overlap, and the overlap start 4e-6 exceeds its end 1e-6 | no fatal exit, and no overlap when the larger start exceeds the smaller end | not executed | GeomInterval.ComputeOverlapFatal | GeomInterval.ComputeOverlapIntended |
