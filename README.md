# Friend recommendations over a friend graph, in Dafny

This project models the recommender core of a small Python link-prediction
repository. The modelled code covers three pieces:

- **`Recommendations`** (`app/recommendations.py`). For every node of a
  friend dict (node → set of friends), it ranks the other nodes that are
  not already friends. The ranking uses a named score: common neighbours,
  Jaccard or Adamic–Adar. Zero scores are dropped, the rest are sorted by
  descending score with Python's stable `sorted`, and each list is cut to
  `number_of_suggestions`.
- **`CommonNeighbors`** (`app/common_neighbors.py`). The older, loop-based
  recommender for common-neighbour counts. It fills its table in its
  constructor.
- **`DataFetcher.create_undirected_graph`** (`app/data_fetcher.py`). It
  makes an edge list undirected. It appends, to the very list it iterates
  over, the reverse of each edge whose reverse is missing.

The Dafny modules follow that layout:

| file | module | what it holds |
|---|---|---|
| `friend_graph.dfy` | `FriendGraph` | node ids, the friend dict (`order`, its key order, plus `adj`), the candidate filter |
| `scorers.dfy` | `Scorers` | the three pairwise scores |
| `ranking.dfy` | `Ranking` | `sort_nodes` as a stable descending insertion sort, and the slice `s[:k]` |
| `link_prediction.dfy` | `LinkPrediction` | the specification of `run_algorithm` and the class `Recommendations` |
| `common_neighbors.dfy` | `CommonNeighborsRecommender` | the class `CommonNeighbors` and its agreement with `Recommendations` |
| `data_fetcher.dfy` | `DataFetcher` | the edge-list symmetrisation, on a shared list object |
| `toy_graph.dfy` | `ToyGraph` | the seven-node graph and the edge list of the repository's tests, with their expected results |

The methods loop as the Python does:

- `Recommendations.RunAlgorithm`, `CommonNeighbors.RunAlgorithm` and
  `CreateUndirectedGraph` each fill a result in a loop. Each is proved
  equal to a specification function: `LinkPrediction.Ranked`,
  `CommonNeighborsRecommender.Ranked` and `DataFetcher.Undirected`. The
  properties are then proved about those functions.
- Both tables (`FindRecommendations` and `FindRecommendedFriends`) are
  proved to map every node to `Truncate(Ranked(...), number_of_suggestions)`.

## Model

| member | source | states |
|---|---|---|
| Scorers.CommonNeighbors | app/recommendations.py:17-32 | the count of shared friends is at most either node's friend count, and is positive exactly when the two nodes share a friend |
| Scorers.Jaccard | app/recommendations.py:34-50 | the score lies in [0, 1]; it is 0 exactly when no friend is shared and 1 exactly when the two friend sets are equal; an empty union is excluded, as the source divides by zero there |
| Scorers.AdamicAdar | app/recommendations.py:52-69 | the sum of the weight of each shared friend's degree; nodes without a shared friend score 0 |
| Scorers.WeightSumPick | app/recommendations.py:66-67 | the sum does not depend on the order the shared friends are visited: any member can be taken out first |
| Scorers.ScorersSymmetric | app/recommendations.py:26-28 | all three scores are symmetric in the two nodes |
| Ranking.Truncate | app/recommendations.py:124 | Python's `s[:k]` is a prefix of `s` of length min(k, len(s)) for k ≥ 0, and drops the last -k items for k < 0 |
| Ranking.SortByScoreSpec | app/recommendations.py:78 | the sort is a permutation of the items and of their keys, leaves scores non-increasing, and keeps items with equal scores in their original order |
| Ranking.SortSorted | app/recommendations.py:78 | items already in non-increasing order are left unchanged by the sort |
| Ranking.SortNodesSorted | app/recommendations.py:78-79 | `sort_nodes` of items already in order returns their keys in that order |
| Ranking.KeysAt | app/recommendations.py:79 | the projection on keys keeps the length and takes the key at every position |
| LinkPrediction.Candidates | app/recommendations.py:89-110 | every node kept in `node_rec` comes from the scanned nodes and is neither the node nor a friend of it |
| LinkPrediction.CandidatesMembers | app/recommendations.py:89-110 | a node is kept exactly when it is scanned, eligible and its score is not 0 |
| LinkPrediction.CandidatesDistinct | app/recommendations.py:89-110 | scanning distinct dict keys keeps no node twice |
| LinkPrediction.RankedMembers | app/recommendations.py:83-112 | `run_algorithm` returns a permutation of the kept nodes, i.e. exactly the graph's nodes that are eligible with a non-zero score |
| LinkPrediction.RankedByScore | app/recommendations.py:83-112 | every recommended node is an eligible key, and a lower score never precedes a higher one |
| LinkPrediction.RankedStable | app/recommendations.py:78 | for every score value, the recommended nodes with that score come in graph iteration order |
| LinkPrediction.UnknownScoreKeepsNothing | app/recommendations.py:105-110 | an unknown score name scores 0, so no candidate is kept |
| LinkPrediction.UnknownScoreRecommendsNothing | app/recommendations.py:105-112 | under an unknown score name `run_algorithm` returns an empty list instead of failing |
| LinkPrediction.ScoreNameAccepted | app/recommendations.py:119 | the assertion of `find_recommendations` holds for every score name |
| LinkPrediction.Recommendations.constructor | app/recommendations.py:8-15 | stores the graph and `number_of_suggestions` (10 unless given), starts with an empty table, and has no `algo` yet |
| LinkPrediction.Recommendations.RunAdamicAdar | app/recommendations.py:52-69 | the loop over the shared friends, visited in any order, adds up to the Adamic–Adar sum |
| LinkPrediction.Recommendations.RunAlgorithm | app/recommendations.py:83-112 | the loop over the graph followed by `sort_nodes` returns exactly the specified ranking |
| LinkPrediction.Recommendations.FindRecommendations | app/recommendations.py:114-126 | records `algo`; leaves the graph and `number_of_suggestions` unchanged; the new table has exactly the graph's nodes as keys, each mapped to the first `number_of_suggestions` nodes of its ranking |
| CommonNeighborsRecommender.KeptAgrees | app/common_neighbors.py:34-49 | the counter loop keeps the same candidates with the same scores, in the same order, as `Recommendations` with "common_neighbors" |
| CommonNeighborsRecommender.RankedAgrees | app/common_neighbors.py:28-51 | both recommenders return the same ranking for every node |
| CommonNeighborsRecommender.RankedDistinct | app/common_neighbors.py:34-51 | no node is recommended twice |
| CommonNeighborsRecommender.RankedFriendsOfFriends | app/common_neighbors.py:40-49 | a node is recommended exactly when it is neither the node nor a friend, and shares at least one friend with it |
| CommonNeighborsRecommender.RankedByCount | app/common_neighbors.py:23-24 | a node sharing fewer friends never precedes one sharing more |
| CommonNeighborsRecommender.CommonNeighbors.constructor | app/common_neighbors.py:7-14 | stores its arguments, with `number_of_suggestions` 10 unless given, and fills the table with every node's truncated ranking |
| CommonNeighborsRecommender.CommonNeighbors.CountCommonFriends | app/common_neighbors.py:36-45 | the counter ends equal to the number of the candidate's friends that are friends of the node |
| CommonNeighborsRecommender.CommonNeighbors.RunAlgorithm | app/common_neighbors.py:28-51 | the nested loops followed by `sort_nodes` return exactly the specified ranking |
| CommonNeighborsRecommender.CommonNeighbors.FindRecommendedFriends | app/common_neighbors.py:53-62 | the table has exactly the graph's nodes as keys, each mapped to the first `number_of_suggestions` nodes of its ranking |
| DataFetcher.UnmatchedShrinks | app/data_fetcher.py:16-19 | appending a missing reverse strictly shrinks the set of edges without a reverse, so the loop over the growing list ends |
| DataFetcher.UndirectedExtends | app/data_fetcher.py:15-19 | the original edges stay, in order, as a prefix; at most as many edges are appended as there were; each appended edge is the reverse of an original edge and was absent when appended |
| DataFetcher.UndirectedClosed | app/data_fetcher.py:16-19 | every edge of the result has its reverse in the result |
| DataFetcher.UndirectedEdges | app/data_fetcher.py:16-19 | the result holds exactly the original edges and their reverses |
| DataFetcher.UndirectedNoRepeats | app/data_fetcher.py:18-19 | a list without repeated edges gets none |
| DataFetcher.CreateUndirectedGraph | app/data_fetcher.py:8-21 | the caller's list is extended in place to the specified result, and the same list object is returned |
| DataFetcher.TestEdgesUndirected | app/test/data_fetcher_test.py:8-26 | on the test's edge list the result holds exactly the expected pairs, each once |
| ToyGraph.ToyScores | app/test/recommendations_test.py:21-61 | on the test graph, a sample of the common-neighbour and Jaccard scores equals the expected values |
| ToyGraph.ToyCommonNeighborsRanked | app/test/recommendations_test.py:88-119 | on any graph with the test graph's keys and friend sets, both recommenders rank every node as the test expects for "common_neighbors", and the cut to ten keeps each list whole |
| ToyGraph.ToyRanked | app/test/recommendations_test.py:88-119 | the same for the test graph written as a dict literal |
| ToyGraph.ToyTable | app/test/recommendations_test.py:89-95 | `CommonNeighbors` built on the test graph without a count uses 10 suggestions and holds exactly the expected table |
| ToyGraph.ToyRecommendationsTable | app/test/recommendations_test.py:113-119 | `Recommendations` built on the test graph without a count uses 10 suggestions; after `find_recommendations('common_neighbors')` it records `algo` and holds exactly the expected common-neighbour table |

## Left out

- Scorers.AdamicAdar: the weight `1 / np.log(d)` is an abstract parameter (`invLog`), so no numeric Adamic–Adar value is proved. That includes `log(1) = 0` for a friend with one friend. The Adamic–Adar lists the test expects are not proved either.
- Jaccard and Adamic–Adar are computed over exact reals. Floating-point rounding is not modelled. Common-neighbour counts are sorted as reals, which preserves their order.
- The exceptions of both `run_algorithm`s are preconditions, not modelled error paths (`LinkPrediction.Callable`, and `node in graph.adj` on `CommonNeighborsRecommender.CommonNeighbors.RunAlgorithm`):
  - a `KeyError` for a node that is not a key of a non-empty graph. On an empty graph the source returns `[]` for any node, a call these preconditions rule out; every caller in the source passes a key;
  - a `ZeroDivisionError` in Jaccard when both friend sets are empty;
  - a `KeyError` in Adamic–Adar when a shared friend is not a key.
- The recommendation table is a `map`, so the insertion order of its keys is not modelled. Each ranking list does keep the dict's iteration order (the graph's `order`).
- The Jaccard ranking the test expects (node 4 → 0, 2, 1) is not proved on the test graph. The general stability and order lemmas cover it.
- `create_undirected_graph`:
  - Membership is tested in the list being extended. In the module's main block the global `graph` is that very list. Called from anywhere else, the source raises `NameError` on the first edge of a non-empty list (an empty list comes back unchanged).
  - Edges are one type. The source builds each reverse as a list, and a list never equals a tuple, so a tuple edge list (as in that main block) behaves differently. The test's list-of-lists input behaves as modelled.
- The test of `create_undirected_graph` expects twenty edges, including duplicate entries for the pairs (4, 5) and (5, 4). The code produces each pair once (eighteen edges), and the model follows the code.
- `DataFetcher.load_data` is an empty stub. `load_network`, `create_friend_dict` and `network_dict`, used by the tests and drivers, do not exist in the data-fetcher source.
- The `__main__` blocks and `app/app.py` are drivers that only print, so they are left out.
- Ties keep graph iteration order, because the code sorts with Python's stable `sorted` on the score alone. They are not broken by ascending node id. Every key of the graph is scanned as a candidate; the code does not restrict candidates to friends of friends. Under common neighbours only friends of friends score above zero anyway (`RankedFriendsOfFriends`).
