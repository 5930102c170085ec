# Graph algorithms, modelled and verified in Dafny

This project models a small teaching library of graph algorithms and
proves properties of the model. The library keeps a graph as a cost matrix.
An undirected graph, a directed graph and a flow network each have their
own matrix class. On top of these it runs:

- Dijkstra's single-source shortest paths;
- Floyd-Warshall all-pairs shortest paths;
- Kruskal's and Prim's spanning trees;
- Ford-Fulkerson's maximum flow;
- breadth-first and depth-first traversal, with cycle detection in the
  depth-first search;
- a binary max-heap;
- five sorting algorithms.

Each source file has a module of its own. Code that works by changing
state becomes Dafny classes and loops:

- the graph classes;
- the algorithm objects, whose constructors run the algorithm;
- the heap;
- the in-place sorts, which work on an `array<int>`.

The pure recursive code becomes functions with lemmas: quick sort, merge
sort, and the list-merging passes of Kruskal's algorithm. Every loop is
proved against a specification:

- a distance that is the least weight of any walk;
- a cut that leaves no augmenting path;
- a heap whose multiset of elements is kept;
- a sorted permutation;
- and so on.

| file | module | models |
|---|---|---|
| `ext_int.dfy` | `ExtInts` | integers extended with `float('inf')` |
| `walks.dfy` | `Walks` | walks through a cost matrix and their weights |
| `counting.dfy` | `Counting` | small facts about the sizes of sets of vertices |
| `graphs.dfy` | `Graphs` | `graphs.py`: `Graph` (both `UGraph` and `DGraph`, told apart by `kind`), `FGraph` |
| `adj_lists.dfy` | `AdjLists` | the adjacency list as a map, reachability along it |
| `dijkstra.dfy`, `dijkstra_demo.dfy` | `Dijkstra`, `DijkstraDemo` | `dijkstra.py` |
| `floyd.dfy` | `Floyd` | `floyd_warshal.py` |
| `kruskal.dfy`, `kruskal_demo.dfy` | `Kruskal`, `KruskalDemo` | `kruskal.py` |
| `prim.dfy` | `Prim` | `prim.py` |
| `ford_fulkerson.dfy`, `ford_fulkerson_demo.dfy` | `FordFulkerson`, `FordFulkersonDemo` | `ford_fulkerson.py` |
| `heap.dfy` | `Heaps` | `heap.py` |
| `sorting.dfy` | `Sorting` | `sorting.py` |
| `bfs.dfy`, `bfs_demo.dfy` | `Bfs`, `BfsDemo` | `bfs.py` |
| `dfs.dfy` | `Dfs` | `dfs.py` |

Modelling choices:

- **Matrix cells.** A cell holds `Fin(w)` or `Inf`. The gap value, meaning
  "no edge", is a parameter: `-1` by default, and `float('inf')` in the
  Floyd-Warshall example.
- **Optional weights.** Python tests a weight for truth (`if w`), so an
  optional weight is `Option<int>`. It counts only when it is present and
  non-zero.
- **Priority queue.** The queue of `dijkstra.py` is a multiset of
  `(cost, vertex)` pairs. `get` removes the least pair in Python's tuple
  order.
- **Copies.** `deepcopy` and `list.copy()` become value semantics: the
  matrix or path is a `seq` that the algorithm owns.
- **Free names.** Some functions use a name the function never defines.
  Each is modelled as the value evidently meant:
  - the global `N` in `insertion_sort` and `selection_sort` is the list's
    length;
  - the global `graph` in `dfs.py:40` is the stored adjacency list;
  - `start` in `dijkstra.py:28` is the constructor's start vertex;
  - `arr` in `heap.py:36` is the constructor's argument.

## Model

| member | source | states |
|---|---|---|
| `Graphs.Graph.constructor` | graphs.py:10-21 | an n-by-n matrix with 0 on the diagonal and the gap everywhere else |
| `Graphs.Graph.Vertices` | graphs.py:40-42 | the vertex list is 0, 1, ..., n-1 |
| `Graphs.StoredWeight` | graphs.py:59-64 | the stored value is never 0; it is the given weight when the graph is weighted and the weight is truthy, and 1 otherwise |
| `Graphs.Graph.AddEdge` | graphs.py:56-64 | both cells [u][v] and [v][u] get the stored weight and every other cell is unchanged; a zero diagonal stays zero when u != v |
| `Graphs.Graph.AddArrow` | graphs.py:94-101 | only cell [u][v] gets the stored weight; every other cell is unchanged |
| `Graphs.NeighborsSpec` | graphs.py:29-37 | j is listed for i exactly when j != i and cell [i][j] is not the gap; the list is strictly increasing |
| `Graphs.Graph.AdjacencyList` | graphs.py:23-38 | i is a key exactly when it has a neighbour, and then it maps to all its neighbours in increasing order |
| `Graphs.UndirectedAdjacencySymmetric` | graphs.py:56-64 | in an undirected graph, v is a neighbour of u exactly when u is a neighbour of v |
| `AdjLists.AdjacencyShape` | graphs.py:23-38 | keys and neighbours lie below n; in an undirected graph every listed neighbour has an entry of its own |
| `Graphs.ScanEntriesSpec` | graphs.py:73-86 | the nested scan reports exactly the kept non-gap cells, each once, in row-major order |
| `Graphs.Graph.ScanList` | graphs.py:109-122 | the loop returns exactly the scan's entries |
| `Graphs.Graph.EdgeList` | graphs.py:67-88 | every non-gap pair u < v appears once, with its weight when the graph is weighted, in row-major order |
| `Graphs.Graph.ArrowList` | graphs.py:103-124 | every non-gap pair u != v appears once, in row-major order |
| `Graphs.FGraph.constructor` | graphs.py:130-138 | every cell starts as capacity 0, flow 0, sign 1 |
| `Graphs.FGraph.Vertices` | graphs.py:148-150 | the vertex list is 0, 1, ..., n-1 |
| `Graphs.FGraph.AddArrow` | graphs.py:140-146 | [u][v] holds w, [v][u] holds w with its sign negated, and nothing else changes (for u = v the negated copy wins) |
| `Dijkstra.Dijkstra.constructor` | dijkstra.py:14-22 | on non-negative weights the start costs 0 and every cost is the least weight of a walk from the start, or +inf when no walk exists |
| `Dijkstra.Dijkstra.Run` | dijkstra.py:24-48 | after the loop no usable arrow can improve any cost, and every cost is the shortest distance |
| `Dijkstra.Visit` | dijkstra.py:31-48 | one turn pops a least entry and keeps the invariant; either a new vertex is settled or the queue shrinks, so the loop ends |
| `Dijkstra.RelaxFrom` | dijkstra.py:36-48 | the inner loop relaxes every usable arrow into an unvisited vertex; each strict improvement is queued and is the weight of a walk; a repeated pop changes nothing |
| `Dijkstra.RelaxArrow` | dijkstra.py:38-48 | one arrow u -> v: when it is usable, v is unvisited and dist + w is strictly below the cost of v, the cost becomes dist + w and (dist + w, v) is queued; otherwise the costs and the queue are unchanged; the inner-loop invariant and the walk witnesses are kept |
| `Dijkstra.MinExists` | dijkstra.py:33 | a non-empty queue has a least entry, so `get` always answers |
| `Dijkstra.PopFacts` | dijkstra.py:33-34 | popped distances never decrease; the first pop of a vertex finds its cost; a repeated pop finds its arrows already relaxed |
| `Dijkstra.SearchDone` | dijkstra.py:31 | an empty queue means every cost is relaxed and shortest |
| `Dijkstra.RelaxedIsLowerBound` | dijkstra.py:45-48 | a relaxed cost table with 0 at the start is at most the weight of every walk |
| `Dijkstra.ShortestUnique` | dijkstra.py:50-53 | the shortest distance is unique, so the costs are determined by the graph |
| `Dijkstra.UnreachableIsInfinite` | dijkstra.py:19 | a distance stays +inf exactly when every walk to the vertex has infinite weight |
| `DijkstraDemo.DemoGraph` | dijkstra.py:60-67 | the seven `add_arrow` calls build the example matrix |
| `DijkstraDemo.DemoDistances` | dijkstra.py:60-73 | the distances from 0 in the example are 0, 5, 3, 5, 9 |
| `DijkstraDemo.Demo` | dijkstra.py:69-73 | running the algorithm on the example returns 0, 5, 3, 5, 9 |
| `Floyd.FloydMatrix` | floyd_warshal.py:12-32 | costs never rise, and each is the weight of some walk; an untouched cell keeps its `paths` entry j; with no negative cycle every cost is the shortest distance and the result is closed under detours; on a closed matrix nothing changes |
| `Floyd.Floyd` | floyd_warshal.py:12-32 | the graph's matrix is copied and never written; every cost is at most the arrow's and is the weight of some walk; with no negative cycle every cost is the shortest distance and the result is closed under detours; on a closed matrix the costs are the input and `paths` stays at its initial value |
| `Floyd.Identity` | floyd_warshal.py:18 | the initial `paths` table has paths[i][j] = j |
| `Floyd.Round` | floyd_warshal.py:20-30 | one round through k leaves every cell at most its cost through k at the start of the round |
| `Floyd.Relax` | floyd_warshal.py:24-30 | cell (i, j) takes the cost through k, and records k, exactly when that is strictly cheaper |
| `Floyd.RoundBound` | floyd_warshal.py:20-30 | after round k, no walk whose inner vertices are below k + 1 is cheaper than the cell |
| `Floyd.FinalShortest` | floyd_warshal.py:20-32 | after the last round every cost is the least weight of a walk of at least one step |
| `Floyd.FinalClosed` | floyd_warshal.py:27-30 | the final costs satisfy the triangle inequality |
| `Floyd.FinalRealized` | floyd_warshal.py:27-30 | every final cost is the weight of some walk |
| `Floyd.FloydTwice` | floyd_warshal.py:12-32 | running `floyd` on its own result changes nothing and leaves `paths` at its initial value |
| `Kruskal.SortByWeightSpec` | kruskal.py:26 | the sorted list is ordered by weight, is a permutation, and keeps the input order among equal weights |
| `Kruskal.FirstStep` | kruskal.py:34-50 | one edge of the first loop on the dictionary of lists is the `Join` step |
| `Kruskal.FirstLoop` | kruskal.py:32-50 | the first loop computes `FirstPass` |
| `Kruskal.FirstPassExact` | kruskal.py:32-50 | after the first loop the lists are exact components and the taken edges close no cycle |
| `Kruskal.FirstPassBound` | kruskal.py:32-50 | on vertices below n the first loop takes fewer than n edges |
| `Kruskal.SecondStep` | kruskal.py:54-60 | one edge of the second loop as written: `D[v]` grows by `D[u]` and only `u` is rebound |
| `Kruskal.SecondLoop` | kruskal.py:53-60 | the second loop as written computes `SecondPass` |
| `Kruskal.SpanningTreeEdges` | kruskal.py:23-60 | the tree as written uses only edges of the graph |
| `Kruskal.SpanningTreeSpans` | kruskal.py:23-60 | the tree as written connects the ends of every edge of the graph |
| `Kruskal.SpanningTreePrefix` | kruskal.py:32-60 | the tree as written starts with the first loop's forest |
| `Kruskal.SquareTree` | kruskal.py:53-60 | on the square 0-2-1-3-0 the tree as written keeps all four edges |
| `Kruskal.SpanningTreeCycle` | kruskal.py:56-60 | the tree as written can close a cycle |
| `Kruskal.Merge` | kruskal.py:56-60 | as intended: the edge is taken exactly when u is not on v's list, and then every vertex of u's list is rebound to v's list |
| `Kruskal.MergeStep` | kruskal.py:54-60 | one edge of the intended second loop is the `Merge` step |
| `Kruskal.SecondLoopFixed` | kruskal.py:53-60 | the intended second loop computes `SecondPassFixed` |
| `Kruskal.SpanningForestSpec` | kruskal.py:23-60 | with whole lists rebound the tree closes no cycle, uses only edges of the graph, and connects the ends of every edge |
| `Kruskal.Kruskal.constructor` | kruskal.py:14-21 | the edges are the graph's edge list, in row-major order; the tree is what both passes as written compute from them: it uses only their edges, connects the ends of every one, and starts with the first pass's acyclic forest |
| `Kruskal.Kruskal.Run` | kruskal.py:23-60 | the tree is the result of both passes as written over the weight-sorted edges |
| `KruskalDemo.DemoGraph` | kruskal.py:67-75 | the eight `add_edge` calls build the example's weighted matrix |
| `KruskalDemo.DemoEdgeList` | graphs.py:67-88 | the edge list of the example is (1,0,1), (4,0,2), (5,1,3), (2,2,3), (6,2,4), (8,3,4), (7,3,5), (3,4,5) |
| `KruskalDemo.DemoSortedAll` | kruskal.py:26 | sorting the example's edges by weight gives the weights 1 to 8 in order |
| `KruskalDemo.DemoFirstPass` | kruskal.py:32-50 | the first loop on the example takes the edges of weight 1, 2, 3 and leaves three lists [0,1,0], [2,3,2], [4,5,4] |
| `KruskalDemo.DemoSecondPass` | kruskal.py:53-60 | the second loop on the example takes only the edges of weight 4 and 6 |
| `KruskalDemo.DemoSpanningTree` | kruskal.py:23-60 | both loops on the example give the edges of weight 1, 2, 3, 4, 6 |
| `KruskalDemo.DemoTotal` | kruskal.py:67-81 | that tree weighs 16 |
| `KruskalDemo.DemoTree` | kruskal.py:67-81 | `Kruskal(G).tree` on the example is (1,0,1), (2,2,3), (3,4,5), (4,0,2), (6,2,4), of total weight 16 |
| `Prim.Prim.constructor` | prim.py:16-26 | the tree is greedy and acyclic, uses only edges of the graph, and has fewer than n edges; when it spans fewer than n vertices, no edge leaves the grown set |
| `Prim.Prim.GetMin` | prim.py:28-48 | the sentinel is returned exactly when no edge has exactly one end in S; otherwise the result is a cheapest such edge |
| `Prim.ScanFrom` | prim.py:36-46 | the scan of all edges for one member of S keeps the running minimum the cheapest candidate seen |
| `Prim.Prim.Take` | prim.py:59-61 | taking a cheapest crossing edge appends it and grows S by exactly one vertex |
| `Prim.Prim.Run` | prim.py:50-61 | the loop stops with fewer than n edges, and stops early only when no edge leaves S |
| `Prim.GrowStep` | prim.py:59-61 | a crossing edge adds exactly one new vertex |
| `Prim.GreedyStep` | prim.py:53-61 | a greedy tree extended by a cheapest crossing edge stays greedy |
| `Prim.GreedyAcyclic` | prim.py:42-43 | a greedy tree closes no cycle |
| `FordFulkerson.FordFulk.constructor` | ford_fulkerson.py:18-20 | the algorithm works on its own copy of the graph's matrix |
| `FordFulkerson.FordFulk.GetMaxVertex` | ford_fulkerson.py:22-46 | -1 exactly when no unvisited vertex has positive residual from u; otherwise the unvisited vertex with the largest residual, the lowest one on a tie |
| `FordFulkerson.GetMaxFlow` | ford_fulkerson.py:48-51 | the bottleneck is the least weight on the stack, and it is one of them |
| `FordFulkerson.Bottleneck` | ford_fulkerson.py:48-51 | the bottleneck of a found path is positive and no larger than any of its residuals |
| `FordFulkerson.PushCell` | ford_fulkerson.py:62-69 | one arrow moves f times its sign from forward to backward in cells [u][v] and [v][u] only |
| `FordFulkerson.UpdatedKeeps` | ford_fulkerson.py:53-69 | an update keeps every sign, every sum of forward and backward, and the mirroring |
| `FordFulkerson.FordFulk.UpdateGraph` | ford_fulkerson.py:53-69 | the loop performs the pushes of every arrow except the sentinel |
| `FordFulkerson.AugmentOut` | ford_fulkerson.py:53-69 | pushing f along a found path lowers the positive residual leaving the start by exactly f |
| `FordFulkerson.FordFulk.Search` | ford_fulkerson.py:78-112 | a search ends either stuck at the start, with the visited vertices a cut, or at the end, with the stack a path of positive residuals |
| `FordFulkerson.SearchDone` | ford_fulkerson.py:87-89 | stuck at the start, the visited vertices form a cut |
| `FordFulkerson.CutBlocks` | ford_fulkerson.py:76-89 | a cut leaves no augmenting path |
| `FordFulkerson.FordFulk.Augment` | ford_fulkerson.py:105-108 | augmenting keeps capacities and lowers the start's positive residual by the bottleneck; on opposed pairs every cut between start and end loses exactly the bottleneck, and no residual goes negative |
| `FordFulkerson.FordFulk.Run` | ford_fulkerson.py:71-114 | the total is what left the start's positive residuals; signs and capacities are kept; the last search's visited set is a cut and no augmenting path is left; on an opposed network with no negative residual the total equals the capacity of that cut and is at most the capacity of every cut between start and end, so the flow is maximum |
| `FordFulkerson.FreshNetwork` | graphs.py:130-138 | the constructor's matrix is an opposed network with no negative residual |
| `FordFulkerson.ArrowKeeps` | graphs.py:140-146 | `add_arrow(u, v, [c, 0, 1])` with c >= 0 keeps a network opposed and free of negative residuals |
| `FordFulkerson.PushCut` | ford_fulkerson.py:62-69 | a push along an opposed pair lowers its residual by f, raises the reverse by f, and changes every cut's capacity by f per crossing into it less f per crossing out |
| `FordFulkerson.UpdatedCut` | ford_fulkerson.py:53-69 | pushing a found path's first k arrows changes every cut's capacity by f for the k-th arrow's head less f for the start |
| `FordFulkerson.UpdatedOpposed` | ford_fulkerson.py:53-69 | an update keeps every pair opposed |
| `FordFulkerson.PushOpposed` | ford_fulkerson.py:62-69 | a push along an opposed pair keeps every pair opposed |
| `FordFulkerson.PushNoNegative` | ford_fulkerson.py:62-69 | a push of at most the residual of an opposed pair leaves no residual negative |
| `FordFulkerson.UpdatedNoNegative` | ford_fulkerson.py:48-69 | a bottleneck push leaves no residual negative, and the arrows not yet pushed keep their cells |
| `FordFulkerson.CutBounds` | ford_fulkerson.py:87-89 | with no negative residual every cut's capacity is non-negative, and a cut the search is stuck in has capacity 0 |
| `FordFulkersonDemo.DemoShape` | ford_fulkerson.py:119-127 | the example network is opposed and has no negative residual |
| `FordFulkersonDemo.DemoCuts` | ford_fulkerson.py:119-127 | every cut of the example between 0 and 4 has capacity at least 60, and the cut with only 0 on the source side has 60 |
| `FordFulkersonDemo.DemoGraph` | ford_fulkerson.py:119-127 | the eight `add_arrow` calls build the example network |
| `FordFulkersonDemo.DemoMaxFlow` | ford_fulkerson.py:129-133 | running the algorithm from 0 to 4 on the example returns 60 |
| `Heaps.GetChildren` | heap.py:29-33 | the two children follow p, are adjacent, the left one odd, and each has p as its parent under `(ichild - 1) // 2` |
| `Heaps.Heap.constructor` | heap.py:15-18 | the heap is valid and holds exactly the given elements |
| `Heaps.Heap.Swap` | heap.py:24-27 | two positions are exchanged and nothing else changes |
| `Heaps.Heap.BuildHeap` | heap.py:35-40 | after sifting down from size // 2 to 0 the list is a heap with the same elements |
| `Heaps.Heap.Heapify` | heap.py:42-52 | given heaps below k, the subtree of k becomes a heap, and only that subtree is rearranged |
| `Heaps.HeapMax` | heap.py:54-62 | the first element of a heap is its maximum |
| `Heaps.ExtractFront` | heap.py:56-59 | after the two pops and the insert, the heap property holds below the root and one copy of the maximum is gone |
| `Heaps.SiftDownSpec` | heap.py:64-88 | corrected to swap with the larger child: given heaps below k, the sift makes the subtree of k a heap and only rearranges that subtree |
| `Heaps.Heap.OrderDown` | heap.py:64-88 | the loop computes the corrected sift, so the subtree of k becomes a heap and only that subtree is rearranged |
| `Heaps.Heap.Extract` | heap.py:54-62 | returns the maximum and leaves a valid heap with one copy of it removed: the last element moved to the front and sifted down |
| `Heaps.IndexOf` | heap.py:72 | `list.index`: the first position holding x |
| `Heaps.AsWrittenDistinct` | heap.py:72 | with distinct elements the position found is the larger child |
| `Heaps.AsWrittenIsSift` | heap.py:64-88 | on distinct elements with heaps below k, the sift as written returns, and returns exactly the corrected sift, so it keeps the heap property |
| `Heaps.ExtractAsWrittenDistinct` | heap.py:54-88 | `extract` as written on a heap of distinct elements returns the maximum and leaves the corrected sift's result, a valid heap with one copy of the maximum removed |
| `Heaps.OrderDownLoops` | heap.py:64-76 | as written, the sift from [1,5,5,5,5,1] swaps positions 0 and 1 forever |
| `Heaps.ExtractAsWrittenLoops` | heap.py:54-76 | as written, `extract` on the valid heap [9,5,5,5,5,1,1] never returns |
| `Heaps.Heap.Add` | heap.py:90-96 | appending and rising keeps a valid heap and adds exactly the element |
| `Heaps.Heap.OrderUp` | heap.py:98-105 | the rise keeps the elements and ends with a heap |
| `Heaps.UpStep` | heap.py:101-105 | swapping a rising element with a smaller parent moves the one exception up |
| `Heaps.UpDone` | heap.py:103 | a rise that stops at the root, or below a parent at least as large, leaves a heap |
| `Sorting.Swap` | sorting.py:25 | two positions are exchanged and the rest is unchanged |
| `Sorting.SwapPerm` | sorting.py:25 | a swap keeps the multiset |
| `Sorting.BubbleSort` | sorting.py:17-27 | the array ends sorted and holds the same multiset; the same list object is returned |
| `Sorting.InsertionSort` | sorting.py:29-39 | the array ends sorted and holds the same multiset |
| `Sorting.SelectionSort` | sorting.py:41-58 | the array ends sorted and holds the same multiset |
| `Sorting.Merge` | sorting.py:79-88 | the merge holds both lists' elements |
| `Sorting.MergeSorted` | sorting.py:73-88 | merging two sorted lists gives a sorted list |
| `Sorting.MergeSortedLists` | sorting.py:73-88 | the loop computes `Merge`; it holds both lists' elements, sorted when both inputs are |
| `Sorting.Lesser` | sorting.py:67 | only elements below the pivot; strictly shorter than the list when the pivot occurs in it |
| `Sorting.Equals` | sorting.py:68 | only copies of the pivot, as many as the list holds |
| `Sorting.Greater` | sorting.py:69 | only elements above the pivot; strictly shorter than the list when the pivot occurs in it |
| `Sorting.PartitionPerm` | sorting.py:67-69 | the three parts together are a permutation of the list |
| `Sorting.Pivot` | sorting.py:65 | the pivot index lies in 1 .. len - 1 |
| `Sorting.QuickSort` | sorting.py:60-71 | quick sort keeps the multiset |
| `Sorting.QuickSortSorted` | sorting.py:60-71 | whatever pivots are picked, the result is sorted |
| `Sorting.QuickSortPickFree` | sorting.py:65 | the random pivot does not change the result |
| `Sorting.MergeSort` | sorting.py:90-102 | merge sort keeps the length and the multiset |
| `Sorting.MergeSortSorted` | sorting.py:90-102 | merge sort returns a sorted list |
| `Sorting.SortedUnique` | sorting.py:109-115 | two sorted lists with the same elements are equal, so every correct sort returns `sorted(a)` |
| `Sorting.MergeSortIsQuickSort` | sorting.py:114-115 | merge sort and quick sort return the same list |
| `Sorting.SortsAgree` | sorting.py:109-115 | the five sorts, each on its own copy, return the same list: a's sorted arrangement |
| `Bfs.Bfs.constructor` | bfs.py:14-18 | the traversal finishes exactly when the start has an entry; it then visits exactly the vertices reachable from the start, each once, start first, in the order that one `Turn` per visited vertex gives |
| `Bfs.Bfs.Run` | bfs.py:20-35 | `visited` starts with the start, has no repeats, and holds only reachable vertices; it finishes exactly when every reachable vertex has an entry, and then it holds all of them and the loop turned once per visited vertex; when it finishes, the two lists are what that many `Turn`s make of `[start]`, `[start]` |
| `Bfs.FreshSpec` | bfs.py:31-35 | the neighbours not yet visited, in list order and without repeats: exactly those of the list that are not in `visited` |
| `Bfs.FreshExtend` | bfs.py:33-35 | while both lists are their starting contents plus the fresh neighbours of a prefix, the next neighbour joins that fresh part exactly when the current `visited` lacks it, and skipping or appending it keeps the equations for the longer prefix |
| `Bfs.Bfs.Scan` | bfs.py:33-35 | one neighbour is appended to both lists exactly when `visited` lacks it, keeping the scan invariant; `ok` is unchanged |
| `Bfs.Turn` | bfs.py:27-35 | one turn of the loop pops the front, grows `visited` at its end by exactly the front's neighbours it lacked, and grows the queue by the same amount |
| `Bfs.Bfs.Visit` | bfs.py:31-35 | both lists grow at their ends by exactly the fresh neighbours, in list order, and nothing else changes |
| `Bfs.FrontReachable` | bfs.py:27-31 | the dequeued vertex is reachable, so a failed lookup is a reachable vertex without an entry |
| `Bfs.ScanAdd` | bfs.py:33-35 | appending a new neighbour keeps `visited` repeat-free and reachable |
| `Bfs.QueuedDone` | bfs.py:25 | an empty queue means `visited` is exactly the set of reachable vertices |
| `Bfs.ClosedKeys` | bfs.py:31 | in an undirected graph every lookup succeeds exactly when the start has a neighbour |
| `AdjLists.NoDupBound` | bfs.py:33-35 | a repeat-free list of vertices below n has at most n entries |
| `AdjLists.ShutReach` | bfs.py:25-35 | a set that contains the start and the neighbours of all its members contains every reachable vertex |
| `BfsDemo.DemoGraph` | bfs.py:43-50 | the seven `add_edge` calls on an unweighted graph build the example matrix, every stored weight 1 |
| `BfsDemo.DemoNeighbors` | graphs.py:23-38 | the example's adjacency list is 0: [1,3,4], 1: [0,2,3], 2: [1,3], 3: [0,1,2,4], 4: [0,3] |
| `BfsDemo.DemoTurnOne` | bfs.py:25-35 | the first turn dequeues 0 and appends 1, 3, 4 to both lists |
| `BfsDemo.DemoTurnTwo` | bfs.py:25-35 | the second turn dequeues 1 and appends only 2 |
| `BfsDemo.DemoTurnLate` | bfs.py:25-35 | the last three turns dequeue 3, 4, 2 and append nothing |
| `BfsDemo.DemoStates` | bfs.py:20-35 | k turns from [0], [0] reach the k-th state of that trace |
| `BfsDemo.DemoEnd` | bfs.py:20-35 | a run that ends with an empty queue has visited [0, 1, 3, 4, 2] |
| `BfsDemo.DemoVisited` | bfs.py:52-53 | `Bfs(G, 0).visited` on the example is [0, 1, 3, 4, 2], the order the source asserts |
| `Dfs.Dfs.constructor` | dfs.py:12-15 | stores the adjacency list, searches from u, and every recorded cycle is a cycle of the graph |
| `Dfs.Dfs.Run` | dfs.py:17-44 | the search only adds to the recorded cycles, and each one it adds is a cycle: at least four entries, closed, along listed neighbours, with no inner repeat |
| `Dfs.PopTo` | dfs.py:22-29 | the pops stop at u, and the popped entries read back to front are the tail of the path from u's place, closed by u |
| `Dfs.Reverse` | dfs.py:32 | `reverse` puts entry i at position len - 1 - i |
| `Dfs.CloseCycle` | dfs.py:20-33 | the tail of the path from u's place, closed by u, is a cycle whenever it has more than three entries |
| `Dfs.PathPush` | dfs.py:37-44 | pushing an unvisited listed neighbour keeps the path a repeat-free walk within n vertices |
| `Dfs.Dfs.Cycles` | dfs.py:46-59 | the kept cycles are recorded cycles in order; no two have the same vertex set; every recorded cycle's vertex set is among them; each is the first with its set |
| `Dfs.Keep` | dfs.py:56-57 | keeping a cycle whose vertex set is new keeps the deduplication invariant |
| `Dfs.Skip` | dfs.py:56 | skipping a cycle whose vertex set is already kept keeps the invariant |

## Left out

- Output and waiting: `print`, `time.sleep` and `__repr__` are left out.
- `cost_matrix`, `costs`, `tree`, `visited` and `heap` are plain reads of
  a field. The model reads the field directly.
- `get_random_list` in `sorting.py` is left out. It is randomised test-data
  generation, and it uses undefined names.
- The random pivot of `quick_sort` (`random.randint`) is a parameter
  `pick`. `QuickSortPickFree` shows that the result does not depend on it.
- The random start vertex of the Prim example is not modelled. The start
  vertex is a parameter.
- `Dijkstra.Dijkstra.constructor` requires non-negative weights. The
  file's own description asks for this.
- The Dijkstra example's costs follow the code, with 5 for vertex 1. The
  direct arrow weighs 5, and the detour 0-2-3-1 weighs 6.
- The Floyd-Warshall example and its local `get_path` helper
  (`floyd_warshal.py:40-75`) are not modelled. Only `floyd` itself is.
- The gap value is compared like any other value, as in the code. A graph
  whose gap is `-1` therefore gives Floyd-Warshall arrows of weight -1.
  The shortest-path property is then stated only for matrices without
  negative cycles.
- `Prim.Prim.constructor`: that the tree has minimum weight is not
  proved, and neither is the example weight 16. That needs an exchange
  argument over every spanning tree of the component, which the model
  does not carry. What is proved: each edge is a cheapest crossing edge
  when it is taken (greediness), and the tree is acyclic and maximal.
- `Prim.Prim.constructor` requires a weighted graph. On an unweighted
  graph the edges are pairs, and `edge[2]` at prim.py:37-40 raises
  `IndexError`; the model does not reproduce that error.
- `Kruskal.Kruskal.constructor`: that the tree has minimum weight is not
  proved in general, for the same reason as for Prim. The tree as written
  is not always acyclic (see Findings). What is proved: it uses only edges
  of the graph, connects the ends of every edge, and starts with the first
  pass's acyclic forest. On the example graph the tree and its weight 16
  are proved (`KruskalDemo.DemoTree`).
- `Kruskal.Kruskal.constructor` requires a weighted graph. On an
  unweighted graph the edges are pairs, and `_, u, v = edge` at
  kruskal.py:33 raises `ValueError` at the first edge; the model does not
  reproduce that error.
- Python's stable `sorted` is modelled as a stable insertion sort.
- Prim's `__get_min` visits the members of the set `S` in an unspecified
  order, so each is chosen with `:|`. A tie between equally cheap edges may
  therefore be broken differently than in CPython.
- `FordFulkerson.FordFulk.Run`: that the flow is maximum is proved only
  for networks whose pairs of cells are opposed (opposite signs, or no
  residual either way) and whose residuals are non-negative. These are
  the networks that the constructor and `add_arrow(u, v, [c, 0, 1])` with
  c >= 0 build (`FreshNetwork`, `ArrowKeeps`). On other matrices a push
  along a pair with equal signs does not move the residual back, and the
  cut bound does not hold.
- `FordFulkerson.FordFulk.Run` requires `start != end` and signs that are
  1 or -1.
  - For `start == end` the source never leaves its outer loop.
  - The signs are what `add_arrow` writes when it is given a sign of 1.
- `FordFulkerson.FordFulk.constructor`: `deepcopy` becomes value
  semantics.
- `Graphs.FGraph.AddArrow`: the caller's list is not aliased. The source
  stores the caller's list at [u][v] and a copy at [v][u].
- `Heaps.Heap.Extract` sinks the new root with the corrected sift, which
  swaps with the larger child (`SiftDown`), not with the position that
  `list.index` finds. On distinct elements the two agree
  (`AsWrittenIsSift`, `ExtractAsWrittenDistinct`). On repeated values the
  code as written may never return (see Findings).
- `Heaps.Heap.Extract` requires two elements. The source's second `pop`
  fails on a one-element heap, and its first `pop` fails on an empty one.
- `Bfs.Bfs.Run`: the source raises `KeyError` when a dequeued vertex has
  no adjacency entry, which happens when it has no neighbour. The model
  sets `ok` to false instead and stops.
- `Dfs.Dfs.Run`: only soundness is stated. Every recorded cycle is a
  cycle of the graph and recording only adds. That every cycle is found
  is not stated: it needs an induction over the whole recursion tree,
  showing that the search walks every simple path from u and so closes
  every cycle that such a path reaches. The model's invariants speak only
  of the current path, one call at a time.
  - The example's expected cycles are not proved. The source's own
    `assert expected_cycles, cycles` checks only that the set is not
    empty.
  - The path copies passed to the recursive calls are values.

## Findings

| source | as written | input that shows it | evidently intended | confidence | as-written member | corrected member |
|---|---|---|---|---|---|---|
| kruskal.py:56-60 | `D[v] += D[u]` extends v's list object, but `D[u] = D[v]` rebinds only u; the other vertices of u's old list keep a stale list, and a later edge can join two vertices that are already connected | the square with edges (1,0,2), (4,0,3), (3,1,2), (2,1,3): the tree keeps all four edges and closes the cycle 0-2-1-3-0 | rebind every vertex of u's list, so the tree is a spanning forest | not executed | `Kruskal.SpanningTreeCycle` | `Kruskal.SpanningForestSpec` |
| heap.py:72 | `self.__heap.index(max(...))` searches the whole list for the larger child's value, so with duplicates it can find a position above the parent | `extract` on the valid heap [9,5,5,5,5,1,1]: the sift swaps positions 0 and 1 back and forth and never returns | swap with the larger of the two children | not executed | `Heaps.ExtractAsWrittenLoops` | `Heaps.SiftDownSpec` |
