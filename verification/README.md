# Bacteria counter: the dot-counting core, in Dafny

This project models how the Processing sketch `bacteriaCounter` counts the
dots (bacterial colonies) in a plate image, and proves what the count means.

The watershed is the pointer-based rainfall algorithm of Bieniek and Moga. It
runs on the distance map of a thresholded image:

- the white pixels are the candidates;
- each white pixel's red channel is its altitude.

It runs in four passes over a pointer array `point`:

1. Each white pixel points at its steepest lower neighbour, or at -1.
2. Non-minimal plateaus are drained breadth-first from their outlets.
3. The remaining plateaus are merged into union-find trees.
4. `find` sends every white pixel to its root.

After the passes, `reLabel` numbers the roots 1..n in order of first
appearance and marks every other pixel -2. `objCount` is the largest label.

The model also covers:

- `drawShed`, which colours the dots from a ten-colour palette;
- `rgbFilter` and the rectangular `drawCrop`, the image edits made before the count;
- sections: rectangles the user draws, named `Sec_1`, `Sec_2`, …, each with a count of the distinct dots it covers;
- the two-click mouse logic that defines sections and crops.

Modules follow the program's structure:

- `Grid` and `Neighbours`: the row-major pixel grid, `getCol` and `getNeighbours`.
- `UnionFind`: `find` with path compression, over a forest with a ghost rank.
- `Rainfall`: the first two passes.
- `Basins`: the last two passes, and connectivity within a plateau.
- `Watershed`: the passes composed, and what the result means. Every white pixel ends at the smallest pixel of a regional minimum. A pixel with a lower neighbour follows its steepest descent. A pixel on a plateau with a way down follows a shortest level path to it.
- `Labels`: `reLabel` and `objCount`.
- `Pipeline`: `watershedRun`.
- `Colour`, `Shed` and `Filters`: pixels, `drawShed`, `rgbFilter` and `drawCrop`.
- `Sections`: `makeSection`, `countSecs`, `clearSecs`, `sectionCheck` and `croppingCheck`.
- `Basics` and `Sorting`: Java division, Processing's `max` and `str`, and `IntList.sort`.

The sketch mutates global arrays. The model passes them in and returns them
instead. Colours are the 32-bit ARGB bit patterns Processing stores, written as
unsigned numbers. `color(r, g, b)` clamps each channel to 0..255 and sets
alpha to 0xff.

## Model

| member | source | states |
|---|---|---|
| Neighbours.GetCol | bacteriaCounter.java:219-227 | the result lists, in ascending order, exactly the indices whose pixel equals the colour |
| Neighbours.GetNeighbours | bacteriaCounter.java:1083-1101 | the result is strictly ascending and holds exactly the white pixels among the eight around `loc` that lie inside the image (no wrap across a row edge) |
| Sorting.Sort | bacteriaCounter.java:1099 | `IntList.sort` returns a sorted permutation of its input; an input without repeats comes out strictly ascending |
| Sorting.SortSameElements | bacteriaCounter.java:1099 | sorting keeps exactly the elements of the list |
| Grid.NeighbourSymmetric | bacteriaCounter.java:1083-1101 | between white pixels, being a neighbour is symmetric |
| Rainfall.LowestNeighbour | bacteriaCounter.java:990-1001 | the pointer chosen for p is its steepest descent: -1 when no neighbour is lower; otherwise the lowest neighbour, with ties going to the smallest index |
| Rainfall.FirstPass | bacteriaCounter.java:988-1003 | every white pixel points along its steepest descent, and no other pixel changes |
| Rainfall.SecondPass | bacteriaCounter.java:1006-1035 | resolved pixels keep their pointers; a pixel newly resolved points to a level neighbour; no -1 pixel is left next to a resolved level neighbour; with first-pass input, every pointer goes downhill or to a level neighbour nearer the outlet; a newly resolved pixel is one level deeper than the pixel it points at, and at most one deeper than any resolved level neighbour |
| Rainfall.SeedQueue | bacteriaCounter.java:1008-1022 | the queue holds resolved white pixels, and every stranded plateau pixel has a level neighbour in it |
| Rainfall.DrainQueue | bacteriaCounter.java:1025-1034 | draining the first-in first-out queue leaves no stranded pixel, keeps the pointers descending, and resolves pixels in breadth-first order: each is one level deeper than its target and at most one deeper than any resolved level neighbour |
| Rainfall.Spread | bacteriaCounter.java:1026-1033 | popping the shallowest queued pixel keeps the queue in breadth-first order (depths d and d + 1, ascending) and every stranded pixel next to a queued level pixel no deeper than its resolved ones. It never changes a resolved pointer, and it shrinks the count of -1 pixels or keeps the queue length |
| UnionFind.RootOf | bacteriaCounter.java:1067-1072 | following pointers inside a forest ends at a self-pointing pixel of no greater rank |
| UnionFind.FollowPointers | bacteriaCounter.java:1068-1072 | the first loop of `find` returns the root of u, along a chain of strictly falling rank |
| UnionFind.Compress | bacteriaCounter.java:1073-1079 | the second loop points exactly the pixels of the path at the root and changes nothing else |
| UnionFind.Find | bacteriaCounter.java:1067-1080 | `find(u)` returns u's root; afterwards the array is still a forest with every pixel's root unchanged, and only the path was re-pointed |
| UnionFind.RootOfIndependent | bacteriaCounter.java:1059-1064 | the root of a pixel does not depend on which rank or domain shows the array to be a forest |
| Basins.Join | bacteriaCounter.java:1046-1051 | the union step finds both roots and points both at the smaller one; the two trees merge and every other tree keeps its root |
| Basins.ThirdPass | bacteriaCounter.java:1038-1056 | the -1 pixels become a forest of level pointers; level neighbours share a tree; every pixel is connected within its plateau to its root; other pixels do not change |
| Basins.JoinNeighbours | bacteriaCounter.java:1043-1053 | after the inner loop, every two level neighbours among the visited plateau pixels share a tree |
| Basins.FourthPass | bacteriaCounter.java:1059-1064 | every white pixel ends holding its root in the forest the earlier passes left, and other pixels keep their values |
| Basins.FlowForest | bacteriaCounter.java:1006-1056 | after three passes the white pixels' pointers form one forest, so `find` terminates in the fourth pass |
| Basins.TreesAreComponents | bacteriaCounter.java:1038-1056 | two plateau pixels are in one tree exactly when a level walk through the plateau joins them |
| Basins.ConnectedSym | bacteriaCounter.java:1083-1101 | level connection through white pixels is symmetric |
| Watershed.DrainBound | bacteriaCounter.java:1006-1035 | a level walk of k steps from a pixel to a pixel with a lower neighbour means the second pass resolves the pixel, at depth at most k |
| Watershed.Outlet | bacteriaCounter.java:1006-1035 | a pixel the second pass resolves at depth d reaches a pixel with a lower neighbour in d level steps |
| Watershed.DepthIsDistance | bacteriaCounter.java:1006-1035 | the second pass's depth of a resolved pixel is its distance to the nearest way down; a pixel left at -1 has no way down |
| Watershed.NearerIsDistance | bacteriaCounter.java:1025-1034 | a level neighbour of a pixel at distance d that drains within d - 1 steps is at distance exactly d - 1 |
| Watershed.FinalNearer | bacteriaCounter.java:1059-1064 | a pixel at distance d > 0 from the way down ends in the basin of a level neighbour one step nearer |
| Watershed.PlateauIsMinimum | bacteriaCounter.java:1006-1035 | a white pixel keeps -1 after the second pass exactly when it lies on a regional minimum |
| Watershed.Passes | bacteriaCounter.java:942-948 | from a zeroed array, each white pixel ends at a representative: the smallest pixel of a regional minimum, no higher than itself, holding itself. A pixel shares the value of its steepest descent. A white pixel has a way down exactly when it is not on a regional minimum. A pixel at distance d > 0 from its nearest way down shares the value of a level neighbour at distance d - 1. Two minimum pixels share a value exactly when they are connected. Other pixels keep 0 |
| Labels.ReLabel | bacteriaCounter.java:962-983 | pixels off the white list get -2. White pixels get labels from 1 that are equal exactly when their old values are equal. A value met for the first time gets one more than the number of values met before it |
| Labels.LabelsInRange | bacteriaCounter.java:962-983 | labels on the list run from 1 to the number of distinct old values |
| Labels.ObjCount | bacteriaCounter.java:951 | `max(newlabs)` throws on an empty image, is -2 when no pixel is white, and is otherwise the number of distinct old values |
| Pipeline.LabelledNearer | bacteriaCounter.java:962-983 | renumbering keeps a plateau pixel's label equal to that of its nearer level neighbour |
| Pipeline.ValuesAreMinima | bacteriaCounter.java:942-951 | the values the passes leave on white pixels are exactly the representatives of the regional minima |
| Pipeline.Segment | bacteriaCounter.java:942-949 | `catchmentDefs` labels each regional minimum 1..n, connected minima alike and others apart; a pixel shares its steepest descent's label; a plateau pixel at distance d > 0 from its way down shares the label of a level neighbour at distance d - 1; pixels off the list get -2 |
| Pipeline.WatershedRun | bacteriaCounter.java:942-959 | the labels of `Pipeline.Segment`; `objCount` is the number of regional minima (-2 with no white pixel, no value when `max` throws). When sections exist, every count becomes the distinct labels in its rectangle; if a rectangle reads outside the labels, the sections before it are recounted and it and the later ones keep their counts |
| Pipeline.WatershedCount | bacteriaCounter.java:447-450 | the corrected count button: the total shown is the number of regional minima on every image, blank ones included |
| Pipeline.BlankImageCount | bacteriaCounter.java:447-451 | on a one-pixel black image, `objCount` as written is -2 while the intended total is 0 |
| Pipeline.Recount | bacteriaCounter.java:953-958 | with sections defined, every section is recounted on the new labels; otherwise nothing changes |
| Colour.RgbChannels | bacteriaCounter.java:778-781 | `color(r, g, b)` is an opaque pixel whose channels read back clamped to 0..255 |
| Colour.RgbInjective | bacteriaCounter.java:781 | two `color` values are equal exactly when their clamped channels are |
| Shed.DrawShed | bacteriaCounter.java:288-309 | -2 pixels are black. A label met first takes the palette entry after the last one handed out, wrapping after ten. A label met again takes the colour it had |
| Shed.ShedColour | bacteriaCounter.java:288-309 | on `reLabel` output, a white pixel with label l gets palette entry (l-1) mod 10 and every other pixel is black |
| Shed.ShedSameColour | bacteriaCounter.java:274-309 | two dots share a colour exactly when their labels differ by a multiple of ten, and no dot is black |
| Shed.PaletteDistinct | bacteriaCounter.java:274-284 | the ten palette colours are distinct, and none is black |
| Filters.RgbFilter | bacteriaCounter.java:768-786 | every pixel becomes `color` of its channels, each capped at its ceiling |
| Filters.CappedChannels | bacteriaCounter.java:773-781 | a filtered pixel's channels are the capped ones and never exceed the originals |
| Filters.FilterIdempotent | bacteriaCounter.java:768-786 | filtering twice with the same ceilings equals filtering once |
| Filters.ToImage | bacteriaCounter.java:142-145 | window corners shift by `(winwidth - width)/2` and `(winheight - height)/2`, with Java's truncating division; the rectangle's extent is unchanged |
| Filters.DrawCrop | bacteriaCounter.java:140-156 | pixels outside the closed rectangle between the two corners become black, and pixels inside stay |
| Filters.CropByCoordinates | bacteriaCounter.java:148-156 | read by column and row: (x, y) is blackened exactly when it lies outside the rectangle, corners included in it |
| Filters.CropIdempotent | bacteriaCounter.java:140-156 | cropping again to the same rectangle changes nothing |
| Sections.SectionNameInjective | bacteriaCounter.java:806 | `"Sec_"+str(n)` names differ for different n |
| Sections.CountDots | bacteriaCounter.java:829-836 | the loops fail exactly when they index outside `catchmentDefs`; otherwise they count the distinct non -2 labels of the half-open rectangle |
| Sections.CountSecs | bacteriaCounter.java:817-840 | section `sec`'s count becomes the distinct dots in its rectangle in image space; nothing changes when Java would throw |
| Sections.MakeSection | bacteriaCounter.java:803-814 | appends the rectangle (sec1, sec2), the next name and a count (0, or the dot count when `objCount > 0`); ends drawing |
| Sections.ClearSecs | bacteriaCounter.java:860-874 | zeroes every count, or with `fullwipe` empties all three lists; in both cases all selection flags are cleared |
| Sections.ClearKeepsNumbered | bacteriaCounter.java:860-874 | clearing keeps the names `Sec_1`, `Sec_2`, … in order |
| Sections.NumberedDistinct | bacteriaCounter.java:803-808 | sections named in order have distinct names |
| Sections.SectionCheck | bacteriaCounter.java:919-934 | outside the image nothing happens. A first click records the corner and starts drawing. A second click appends the section (sec1, sec2) with the next name. Its count is 0, or the dot count when `objCount > 0`. The earlier counts and both corners stay. Drawing and section mode end. The selection goes idle unless the count threw |
| Sections.TrackCorner | bacteriaCounter.java:897-900 | while a section is half drawn, the second corner follows the mouse; otherwise nothing changes |
| Sections.TwoClicks | bacteriaCounter.java:896-934 | between the clicks `selSection` moves the second corner to the mouse. So two clicks append exactly one section, spanning the first click and the last tracked position, named next in order. It is counted when dots have been counted, and section mode ends |
| Sections.RecountAll | bacteriaCounter.java:953-958 | ok holds exactly when every rectangle lies inside the labels, and then every count becomes its dot count; otherwise the sections before the first bad one are recounted, and it and the later ones keep their counts (where Java throws) |
| Sections.CroppingCheck | bacteriaCounter.java:125-137 | in the image, a click toggles `midCrop`; the first click of a pair records the corner and starts drawing |
| Sections.CropTwoClicks | bacteriaCounter.java:125-137 | two clicks in the image leave the crop idle, drawn, and anchored at the first click |

## Left out

- `distanceMap` and `getDist` compute the altitudes and the white list, using floating point. The model takes the terrain (altitudes and white list) as input.
- Terrain: the drain loop of `secondPass` compares whole pixel colours (bacteriaCounter.java:1029), whereas its seeding loop (line 1016) and the other passes compare red channels. The distance map writes grey pixels, so the model compares altitudes throughout.
- The circular branch of `drawCrop`, `cropImg` and `imageRefresh` are image plumbing around the modelled steps.
- The GUI is left out:
  - windows, buttons, sliders and checkboxes;
  - `selSection`'s drawing and cursor;
  - `drawSections`;
  - `app.cursor()`.
- `selSection`'s test of whether the mouse is over the image is left out. `inArea` is an input of `Sections.SectionCheck`, and `Sections.TrackCorner` is applied for a mouse over the image.
- `writeOutput`, `fileSelected` and the Python server and camera scripts are file and device I/O.
- Processing's `IntDict` keyed by `str(v)` is a map keyed by `IntString(v)`. `str` is proved injective, so the key stands for v.
- Sections.CountSecs: requires a valid section index, as every caller passes one; Java would throw otherwise.
- Sections.MakeSection: requires the three section lists to have equal length, which every operation keeps.
- Filters.CropIdempotent: stated for a non-empty image width only.
- Watershed.Passes: a plateau pixel with two level neighbours equally near the way down joins the basin of the one the queue resolved first. The contract says only that it joins one of them, because the order depends on the white list's order and the neighbours' scan order.
- Labels.ObjCount: when pixels exist but none is white, `objCount` is -2. The model keeps this as written. See "## Findings" for how a blank image reaches it.
- Integer overflow: pixel indices and counts stay far below 2^31 for any image that fits in memory, so ints are unbounded here.

## Findings

| source | as written | input that shows it | evidently intended | confidence | as-written member | corrected member |
|---|---|---|---|---|---|---|
| bacteriaCounter.java:447-451 | `countVal` shows `str(objCount)`, and `objCount = max(catchmentDefs)` is -2 when no pixel is white. A blank thresholded image gets there. `mapCheck_clicked` enables the count button (line 548) before `imageRefresh` (line 554). `distanceMap` sets `whitePixels` to the empty list (line 192) before its `max` of an empty array throws (line 200) | a thresholded image whose pixels are all black | the count shows 0 dots | medium, not executed; it assumes the GUI library reports the handler's exception and the sketch keeps running | Pipeline.BlankImageCount | Pipeline.WatershedCount |
