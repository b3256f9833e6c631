# Neighbourhoods of cities on a road

`cidades.c` reads a road description and answers one of two questions
about it. A road has a length T. It also has N cities, each at an integer
position with a name. A city's neighbourhood is the stretch of road it
owns. Sort the cities by position. The neighbourhood of a city then runs
from the midpoint with its left neighbour to the midpoint with its right
neighbour. The first city's starts at 0 and the last city's ends at T.

- **Query A** (`calcularMenorVizinhanca`) returns the size of the smallest
  neighbourhood, or -1.0 when the file cannot be loaded.
- **Query B** (`cidadeMenorVizinhanca`) returns the name of the city the
  program selects as the owner of the smallest neighbourhood, or nothing
  when the file cannot be loaded. It uses its own rule:
  - it keeps the cities in file order;
  - it charges half of each gap to the left city of the pair;
  - it then compares the first city's raw position and the last city's
    distance to T with the running minimum.

The model has one module per part of the program:

| file | module | what it holds |
|---|---|---|
| `wrappers.dfy` | `Wrappers` | `Option` |
| `seqs.dfy` | `Seqs` | `Map` over sequences; mapping a permutation gives a permutation |
| `cities.dfy` | `Cities` | `City`, `Road`, the comparator `Compare` |
| `records.dfy` | `Records` | one record line scanned with `"%d %[^\n]"` (`ParseRecord`); the line a city is written as (`FormatRecord`) |
| `loader.dfy` | `Loader` | the file (`RoadFile`), the loader as a function (`Load`) and as the program runs it (`GetRoad`, filling an array) |
| `sorting.dfy` | `Sorting` | a reference sort of positions (`SortInts`) and the in-place sort of the city array (`SortByPosition`) |
| `neighbourhood.dfy` | `Neighbourhood` | Query A |
| `owner.dfy` | `Owner` | Query B, as the program computes it |
| `narrowest.dfy` | `Narrowest` | the city that really owns the smallest neighbourhood; a road on which Query B names another city |

A file is modelled as `RoadFile(length, count, records)`:

- `length` and `count` are the values read by the two `"%d"` conversions
  for T and N. They are `None` when a conversion fails.
- `records` are the lines that follow the header, in file order.

Both queries are written twice:

- as a function: `SmallestNeighbourhoodResult`, `OwnerName`;
- as a method that performs the program's steps: `SmallestNeighbourhood`,
  `CityWithSmallestNeighbourhood`.

Each method's contract says that it computes its function. Positions are
unbounded integers. The `/ 2.0` halves are exact `real` values.

The loader does not check that positions lie in [0, T], so the model does
not assume it either. Query A's result is non-negative for roads whose
cities all lie on the road (`Neighbourhood.SmallestInRange`). A city
beyond the road can make it negative. With T = 3 and cities at 0 and 8
the road loads and Query A returns exactly -1.0, the failure value, so
`main` reports an error for a file that loaded
(`Neighbourhood.OffRoadCityMimicsFailure`).

## Model

| member | source | states |
|---|---|---|
| Cities.Compare | cidades.c:8-10 | the comparator's result is negative, zero or positive exactly when the first city's position is smaller than, equal to or greater than the second's |
| Records.ParseRecord | cidades.c:61 | a scanned record's name is non-empty, does not start with white space and holds no newline |
| Records.ParseFormatRecord | cidades.c:61 | scanning the line written for a city with such a name gives back that city (position and name) |
| Loader.Load | cidades.c:26-75 | a road is produced exactly when T and N were read, 3 <= T <= 1000000, 2 <= N <= 10000, and each of the first N lines exists and scans. The road then has length T and exactly N cities, and city i is the one scanned from line i. No partial road is produced |
| Loader.GetRoad | cidades.c:12-79 | the header checks and the loop that fills the N-city array record by record, giving up on the first missing or malformed line, give exactly `Load` |
| Loader.LoadFileOf | cidades.c:58-75 | writing a well-formed road out as a header and one record line per city, then loading it, gives the same road |
| Loader.LoadTruncated | cidades.c:58-75 | lines after the N-th record line do not change what is loaded |
| Loader.LoadPermutation | cidades.c:58-75 | two files with the same header whose first N record lines are permutations of each other either both load or both fail, whatever lines follow the N-th; when they load, their cities are permutations of each other |
| Sorting.MinIndexFrom | cidades.c:87 | using the comparator, finds a city of the array's tail whose position is no larger than any other in that tail |
| Sorting.SortByPosition | cidades.c:87 | after the in-place sort the city array is ordered by position and holds the same cities (same multiset) |
| Sorting.SortInts | cidades.c:87 | the reference order of positions is sorted and a permutation of its input |
| Sorting.SortedPermutationsAgree | cidades.c:87 | two sorted permutations of the same positions are equal, so any correct sort gives the same positions as `SortInts` |
| Sorting.SortedCitiesPositions | cidades.c:87 | the positions of a sorted arrangement of the cities are `SortInts` of their positions |
| Neighbourhood.MinWidthIsMinimum | cidades.c:89-98 | the running minimum started at T is at most T and at most every neighbourhood, and it is T or one of the neighbourhoods |
| Neighbourhood.ScanWidths | cidades.c:89-98 | the loop over the sorted array computes the running minimum of the neighbourhood sizes, started at T |
| Neighbourhood.SmallestNeighbourhood | cidades.c:81-104 | Query A as the program runs it (load, sort, scan) returns -1.0 when loading fails and otherwise min(T, smallest neighbourhood) over the sorted positions |
| Neighbourhood.WidthsTile | cidades.c:92-94 | the first k neighbourhoods cover [0, end of the k-th] with no gap and no overlap |
| Neighbourhood.NeighbourhoodsCoverRoad | cidades.c:92-94 | the neighbourhoods' sizes add up to T |
| Neighbourhood.MinWidthBelowLength | cidades.c:89-98 | with at least two cities on a road of positive length, the minimum is below T and is the size of an actual neighbourhood |
| Neighbourhood.SmallestInRange | cidades.c:84-98 | a successful Query A is below T. When every city lies in [0, T] it is also non-negative, so it cannot equal the failure value -1.0 |
| Neighbourhood.SmallestIgnoresCityOrder | cidades.c:87-98 | Query A depends only on T and the multiset of positions |
| Neighbourhood.SmallestIgnoresRecordOrder | cidades.c:58-98 | reordering a file's first N record lines, or changing the lines after them, does not change Query A's result |
| Neighbourhood.CitiesAtBothEnds | cidades.c:89-98 | two cities at 0 and at T give T/2 |
| Neighbourhood.ExampleTwoCities | cidades.c:81-104 | a file with T = 10 and cities at 2 and 8 gives 5 |
| Neighbourhood.ExampleThreeCities | cidades.c:81-104 | a file with T = 100 and cities at 10, 20 and 90 gives 15 |
| Neighbourhood.OffRoadCityMimicsFailure | cidades.c:81-104 | a file with T = 3 and cities at 0 and 8 loads, and Query A returns -1.0 for it, the same value as a load failure |
| Owner.ScanGapsFindsFirstMinimum | cidades.c:113-121 | after the pairwise loop the index is -1 exactly when no half gap is below T, and the minimum is then T. Otherwise the index is the first pair whose half gap is smallest, and the minimum is that half gap |
| Owner.SelectionProperties | cidades.c:123-131 | the final minimum is at most T, the first position, the last city's distance to T and every half gap. The last city is chosen exactly when its distance beats every other candidate strictly. The first city is chosen when its position beats T and every half gap strictly and the last city does not win. The loop's choice stands when neither boundary value is strictly smaller |
| Owner.SelectionInRange | cidades.c:113-131 | with T > 0 and at least two cities, the selected index is a valid city index (it never stays -1) |
| Owner.OwnerName | cidades.c:107-111 | Query B yields a name exactly when the road loads |
| Owner.SelectOwner | cidades.c:113-131 | the loop and the two boundary tests over the cities in file order compute `Selection` |
| Owner.CityWithSmallestNeighbourhood | cidades.c:106-145 | Query B as the program runs it returns nothing when loading fails and otherwise the name of the selected city |
| Narrowest.NarrowestIndex | cidades.c:89-98 | the scan of the sorted array also finds an index whose neighbourhood has the minimum size |
| Narrowest.NarrowestCity | cidades.c:87-98 | the returned name belongs to a city whose neighbourhood has Query A's size |
| Narrowest.CorrectedCityWithSmallestNeighbourhood | cidades.c:106-145 | Query B as evidently intended: a name exactly when the road loads, and that name owns a neighbourhood of the smallest size |
| Narrowest.ThirdCityIsNotNarrowest | cidades.c:89-98 | on T = 100 with cities at 20, 30 and 100, Query A gives 25 and the city at 100 does not own the smallest neighbourhood |
| Narrowest.ModesDisagree | cidades.c:113-131 | on that road Query A gives 25, Query B names the city at 100, and that city's neighbourhood (35) is not the smallest |

## Left out

- `main`, the prompts, the menu and every `printf` message, including the `%.2f` formatting of Query A's result: these are terminal I/O.
- Opening and closing the file (`fopen`/`fclose`) and a file that cannot be opened: the model starts from the file's contents, and a file that cannot be opened fails in the same way as one whose header cannot be read.
- The `malloc` failures at lines 19-24, 47-53 and 133-139 and every `free`: memory allocation is not modelled. Query B's name is returned as a value instead of a copied buffer.
- How the stream is split into lines: the single `fgetc` after N at line 56, and `fgets` splitting lines longer than 511 characters. `records` are the lines as the record loop sees them.
- The size of a city's name buffer: `cidades.h` is not part of this model, so names are unbounded and a name that would overflow the buffer is not detected.
- The 32-bit `int` of C: positions, T and N are unbounded integers. Overflow is not modelled in the comparator's subtraction, in the sums and differences of positions, or in the `%d` conversion of out-of-range digits.
- `double`: halves and neighbourhood sizes are exact reals, so rounding is not modelled.
- Sorting.SortByPosition: the C library's `qsort` is replaced by a selection sort that uses the same comparator. Its contract states only what `qsort` promises: ordered and a permutation. The relative order of cities at the same position is unspecified in both.
- Neighbourhood.SmallestInRange: non-negativity is stated only for roads whose cities all lie in [0, T], because the loader does not check positions.

## Findings

| source | as written | input that shows it | evidently intended | confidence | as-written member | corrected member |
|---|---|---|---|---|---|---|
| cidades.c:113-131 | Query B compares half gaps taken in file order with the first city's raw position and with the last city's raw distance to T, and names the city that wins | T = 100, N = 3, records `20 A`, `30 B`, `100 C`: Query B names C, whose neighbourhood is 35, while the smallest neighbourhood (Query A's 25) is A's | name a city whose neighbourhood has the smallest size, the one Query A measures (the menu text at line 158) | not executed | Owner.CityWithSmallestNeighbourhood, shown by Narrowest.ModesDisagree | Narrowest.CorrectedCityWithSmallestNeighbourhood |

The model of the program keeps Query B as written (`Owner`). The corrected
rule sorts the cities as Query A does and names the owner of a
neighbourhood of the minimum size (`Narrowest`).
