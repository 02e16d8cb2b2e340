# cascade_reconstruction in Dafny

This project models the core of *cascade_reconstruction*. That code rebuilds who-reshared-whom trees of Twitter and Bluesky information cascades from time-ordered reshare events. The retweet API only gives each reshare's root, not its actual parent.

The centre is the probabilistic diffusion inference (PDI). Every earlier participant of a cascade is a candidate parent of a reshare, and its weight mixes two things with a weight `gamma`:

- its follower count, relative to the other candidates;
- a power-law decay (exponent `alpha`) of the time since it took part.

One parent is then drawn with numpy's `choice`. The drivers repeat this reconstruction to produce many versions per cascade, write one file per version, and compare versions with each other. They also compare versions with a naive baseline, where every reshare links to the root, and with a uniform-random baseline.

Around that centre, the project models the code that prepares and consumes the cascades:

- the midterm Twitter extraction: sampling cascades, extracting cascade and tweet records, and the `Tweet` wrapper;
- the cleaning of the Bluesky firehose records and of the raw information-diffusion records;
- the chunking of files for upload;
- the construction of the global and naive retweet networks;
- the parameter parsers and file-name layouts that tie the analysis scripts together.

Conventions:

- One Dafny module per source file, each in its own `.dfy` file. `Wrappers`, `PyStrings`, `JsonValue` and `IntArith` are shared helpers for Python's `str` methods, decoded JSON values and integer arithmetic.
- Probabilities are exact reals. A weight vector holding a NaN or an infinity is an error value.
- Python exceptions are `Err` results that carry the exception's kind. Appends that happen before an exception are kept, as in the source.
- Loops that append to a list or a dictionary become methods with loop invariants. Each method is proved equal to a recursive function of its inputs, and the properties are proved about that function.
- The draw `np.random.choice(a, p=p)` is modelled as numpy implements it. The weights are validated first (non-empty, finite, non-negative, summing to one). Then the draw picks the first index whose cumulative weight exceeds a uniform sample `u` in [0, 1). The sample `u`, and every other random pick, is a parameter.

## Model

| member | source | states |
|---|---|---|
| Reconstruction.Normalize | code/package/pkg/reconstruction.py:85-86 | dividing a vector by its own sum fails (NaN) exactly when a non-empty vector sums to zero; otherwise it keeps the length and the result sums to 1 |
| Reconstruction.NormalizeKeepsOrder | code/package/pkg/reconstruction.py:86 | normalising non-negative weights with a positive total keeps them non-negative and keeps their order in both directions |
| Reconstruction.FollowerProbsProportional | code/package/pkg/reconstruction.py:85-86 | follower probabilities form a distribution, and a candidate has the larger probability exactly when it has more followers |
| Reconstruction.Gaps | code/package/pkg/reconstruction.py:92-94 | each candidate's gap is the current timestamp minus its timestamp, plus 0.1 |
| Reconstruction.DecayValues | code/package/pkg/reconstruction.py:93-95 | one decay value per gap, the decay evaluated at that gap |
| Reconstruction.TimeProbsFavourRecent | code/package/pkg/reconstruction.py:92-96 | with a positive, strictly decreasing decay the time probabilities exist, and an earlier candidate gets a strictly smaller one |
| Reconstruction.Mix | code/package/pkg/reconstruction.py:99-103 | the combined vector exists exactly when both inputs are finite, and it has their length |
| Reconstruction.MixIsDistribution | code/package/pkg/reconstruction.py:69-103 | for gamma in [0, 1], mixing two distributions gives non-negative entries that sum to 1 |
| Reconstruction.MixExtremes | code/package/pkg/reconstruction.py:99-103 | gamma = 1 gives the follower distribution and gamma = 0 the time distribution |
| Reconstruction.IndivProbs | code/package/pkg/reconstruction.py:85-103 | the combined weights exist exactly when both the follower and the time probabilities do, one entry per candidate |
| Reconstruction.SearchRightInRange | code/package/pkg/reconstruction.py:106-109 | on non-negative weights a target below the total lands on an index of positive weight, whose cumulative sums bracket the target |
| Reconstruction.Choice | code/package/pkg/reconstruction.py:106-109 | the draw succeeds exactly when the candidates are non-empty and `p` has their length, no negative entry and a sum within tolerance of 1; the drawn index has positive weight |
| Reconstruction.SampleBelowTotal | code/package/pkg/reconstruction.py:106-109 | a uniform sample in [0, 1) scaled by a total at least 1 minus the tolerance stays below that total |
| Reconstruction.WhoRetweetedWhom | code/package/pkg/reconstruction.py:42-111 | a successful draw returns one of the candidate users |
| Reconstruction.ParentIndex | code/package/pkg/reconstruction.py:85-109 | a successful draw returns a position among the candidates |
| Reconstruction.WhoRetweetedWhomIsParentIndex | code/package/pkg/reconstruction.py:106-111 | the user drawn is the user at the drawn position, and both fail together |
| Reconstruction.ParentIndexSucceeds | code/package/pkg/reconstruction.py:69-109 | with gamma in [0, 1], non-negative follower counts of positive total, no candidate later than the current time and a valid decay, the draw succeeds |
| Reconstruction.ZeroFollowersFail | code/package/pkg/reconstruction.py:85-109 | a zero follower total always makes the draw fail with ValueError |
| Reconstruction.PowerLawDensityDecreasing | code/package/pkg/reconstruction.py:36-39 | for alpha > 1 and xmin > 0 the integrand is positive and strictly smaller at a larger point |
| Reconstruction.PowStrictlyIncreasing | code/package/pkg/reconstruction.py:38 | raising to a positive integer power is strictly increasing on positive reals |
| CascadeTree.EdgesFromParents | code/data_analysis/reconstruct_all_cascades.py:90-117 | one edge per event after the root, the k-th from the user at the drawn parent position to the user at position k + 1 |
| CascadeTree.EdgesFromParentsSnoc | code/data_analysis/reconstruct_all_cascades.py:116 | appending one event with an earlier parent keeps the runs a tree over positions and appends exactly one edge |
| CascadeTree.EdgesFromPrefixSnoc | code/data_analysis/reconstruct_all_cascades.py:94-116 | the same step read on the prefix of the users the loop has reached |
| CascadeTree.EdgesFromParentsShape | code/data_analysis/reconstruct_all_cascades.py:90-117 | a run over n >= 2 events has n - 1 edges, the first (users[0], users[1]), the k-th targeting users[k + 1] and sourced at a position at most k |
| CascadeTree.AncestorPath | code/data_analysis/reconstruct_all_cascades.py:94-116 | from every position, following parents strictly descends and ends at the root, so the run is a tree over positions |
| CascadeTree.Vertices | code/data_analysis/reconstruct_all_cascades.py:216-220 | the vertex set holds exactly the endpoints of the edges |
| CascadeTree.VerticesAreAllUsers | code/data_analysis/reconstruct_all_cascades.py:216-224 | the vertex set of a run is exactly the set of the cascade's users |
| CascadeTree.RepeatedUsersMayFormCycle | bluesky/code/data_analysis/001_reconstruct_all_cascades.py:238 | when a user takes part twice, the tree over positions can be a cycle over users |
| PdiReconstruction.PdiParents | code/data_analysis/reconstruct_all_cascades.py:94-116 | a successful prefix run gives k - 1 parent positions, each earlier than its event, the first one the root |
| PdiReconstruction.PdiEdges | code/data_analysis/reconstruct_all_cascades.py:90-117 | fewer than two events raise IndexError; a successful run has one edge fewer than events |
| PdiReconstruction.EntireCascadeReconstruction | code/data_analysis/reconstruct_all_cascades.py:74-117 | the loop returns exactly the edge list, or the exception, of the specification run |
| PdiReconstruction.PdiEdgesOfFailedPrefix | code/data_analysis/reconstruct_all_cascades.py:94-113 | once a draw fails, the whole call fails with that exception |
| PdiReconstruction.PdiParentsStepErr | code/data_analysis/reconstruct_all_cascades.py:105-113 | a failed draw at event k ends the prefix run with that exception |
| PdiReconstruction.PdiRunExtends | code/data_analysis/reconstruct_all_cascades.py:105-116 | a successful draw extends the parents and the edge list by exactly one entry |
| PdiReconstruction.PdiParentsStep | code/data_analysis/reconstruct_all_cascades.py:94-116 | one more event runs the draw over the first k events and appends its result |
| PdiReconstruction.PdiParentsErrPersists | code/data_analysis/reconstruct_all_cascades.py:94-113 | an exception at some event is the result of every longer prefix |
| PdiReconstruction.PdiEdgesShape | code/data_analysis/reconstruct_all_cascades.py:90-117 | a successful run has n - 1 edges, the first fixed as (users[0], users[1]), each later one targeting its event and sourced at an earlier position |
| PdiReconstruction.ParentDependsOnlyOnPrefix | code/data_analysis/reconstruct_all_cascades.py:99-113 | the parent drawn for an event depends only on the first k timestamps and counts and its own sample, never on earlier inferred parents |
| PdiReconstruction.PrefixTotalsPositive | code/data_analysis/reconstruct_all_cascades.py:102 | follower counts whose first two entries are not both zero have a positive total over every prefix of two or more |
| PdiReconstruction.PdiParentsSucceed | code/data_analysis/reconstruct_all_cascades.py:94-116 | events in time order, non-negative counts not zero on the first two, gamma in [0, 1] and a valid decay make every prefix run succeed |
| PdiReconstruction.PdiEdgesSucceed | code/data_analysis/reconstruct_all_cascades.py:74-117 | under the same conditions the whole run succeeds |
| PdiReconstruction.NumVersions | code/data_analysis/reconstruct_all_cascades.py:47-185 | one version exactly for a two-event cascade, otherwise 100 |
| PdiReconstruction.TwoEventCascadeIsDeterministic | code/data_analysis/reconstruct_all_cascades.py:184-185 | a two-event cascade reconstructs to the single edge (users[0], users[1]) whatever the samples |
| PdiReconstruction.AllVersions | code/data_analysis/reconstruct_all_cascades.py:196-206 | one edge list per version, each the run on its own samples; a failure comes from some run |
| PdiReconstruction.GammaDirName | code/data_analysis/reconstruct_all_cascades.py:142 | "gamma_" followed by the value with every point written as an underscore; no point remains |
| PdiReconstruction.AlphaDirName | code/data_analysis/reconstruct_all_cascades.py:149 | "alpha_" followed by the value with every point written as an underscore; no point remains |
| PdiReconstruction.CascadeDirName | code/data_analysis/reconstruct_all_cascades.py:170 | the cascade id left-padded to at least five characters |
| PdiReconstruction.VersionFileName | code/data_analysis/reconstruct_all_cascades.py:227-229 | "v_", the version number in at least three digits, ".gmlz"; the number parses back from between them |
| PdiReconstruction.VersionFileNamesDistinct | code/data_analysis/reconstruct_all_cascades.py:209-229 | different version numbers never share a file name |
| PdiReconstruction.OutputPath | code/data_analysis/reconstruct_all_cascades.py:142-229 | the file written for a version has that version's file name as its base name |
| PdiReconstruction.OutputPathLayout | code/data_analysis/reconstruct_all_cascades.py:142-229 | with slash-free names the path is the output dir, the gamma, alpha and cascade dirs and the file name joined by "/" |
| BlueskyReconstruction.EntireCascadeReconstruction | bluesky/code/data_analysis/001_reconstruct_all_cascades.py:73-116 | the Bluesky loop returns the same edge list, or exception, as the Twitter run on the same inputs |
| BlueskyReconstruction.NumVersions | bluesky/code/data_analysis/001_reconstruct_all_cascades.py:49-235 | one version exactly for a two-post cascade, otherwise 100 |
| BlueskyReconstruction.ReconstructCascade | bluesky/code/data_analysis/001_reconstruct_all_cascades.py:218-256 | an empty frame raises IndexError; a frame whose earliest row is not a "post" is skipped; otherwise there is one run per version over the authors, times and follower counts |
| BlueskyReconstruction.CleanUriForFname | bluesky/code/data_analysis/001_reconstruct_all_cascades.py:119-128 | a URI holding neither removed text is unchanged |
| BlueskyReconstruction.CleanPostUri | bluesky/code/data_analysis/001_reconstruct_all_cascades.py:119-128 | a post URI "at://did:plc:<did>/app.bsky.feed.post/<rkey>" becomes "<did>-<rkey>" |
| BlueskyReconstruction.CleanUriExample | bluesky/code/data_analysis/001_reconstruct_all_cascades.py:123-126 | the docstring's URI gives the docstring's file name |
| BlueskyReconstruction.SameAuthorSelfLoop | bluesky/code/data_analysis/001_reconstruct_all_cascades.py:89-238 | two posts by one author give the single edge from that author to itself |
| BlueskyReconstruction.OutputPath | bluesky/code/data_analysis/001_reconstruct_all_cascades.py:179-279 | the file written for a version has that version's file name as its base name |
| RandomReconstruction.RandomParents | code/data_analysis/reconstruct_random_cascades.py:62-68 | n - 1 parent positions forming a tree over positions, the first the root, each later one the pick made for its event |
| RandomReconstruction.RandomEdges | code/data_analysis/reconstruct_random_cascades.py:62-70 | fewer than two users raise IndexError, and only then |
| RandomReconstruction.GenerateRandomReconstruction | code/data_analysis/reconstruct_random_cascades.py:49-70 | the loop returns exactly the specification's edge list, or its IndexError |
| RandomReconstruction.RandomEdgesShape | code/data_analysis/reconstruct_random_cascades.py:62-70 | n - 1 edges, the first (users[0], users[1]), the k-th targeting users[k + 1] and sourced at a position at most k |
| RandomReconstruction.RandomReachesEveryTree | code/data_analysis/reconstruct_random_cascades.py:65-68 | every tree over positions is the result of some choice of uniform picks |
| RandomReconstruction.NumVersions | code/data_analysis/reconstruct_random_cascades.py:42-120 | one version exactly for a two-event cascade, otherwise 100 |
| RandomReconstruction.CreateOutputFname | code/data_analysis/reconstruct_random_cascades.py:73-90 | the base name is the version's file name, and for slash-free names the path is out_dir, the padded cascade id and the file name joined by "/" |
| CascadeSimilarity.GetJaccardMismatched | code/data_analysis/calculate_cascade_similarity_metrics.py:84-109 | fails with ZeroDivisionError exactly when the first edge set is empty; otherwise returns intersection over union and difference over the first set's size |
| CascadeSimilarity.MeasuresInUnitInterval | code/data_analysis/calculate_cascade_similarity_metrics.py:97-107 | both measures lie in [0, 1] |
| CascadeSimilarity.IdenticalVersions | code/data_analysis/calculate_cascade_similarity_metrics.py:97-107 | identical non-empty versions have Jaccard 1 and no mismatched parent |
| CascadeSimilarity.MismatchedZeroIff | code/data_analysis/calculate_cascade_similarity_metrics.py:101-107 | the mismatch ratio is 0 exactly when every edge of the first set is in the second |
| CascadeSimilarity.JaccardOneIff | code/data_analysis/calculate_cascade_similarity_metrics.py:97-106 | Jaccard is 1 exactly when the two edge sets are equal |
| CascadeSimilarity.Symmetric | code/data_analysis/calculate_cascade_similarity_metrics.py:98-107 | Jaccard is symmetric, and so is the mismatch ratio when the sets have equally many edges |
| CascadeSimilarity.RunsHaveEqualEdgeCounts | code/data_analysis/calculate_cascade_similarity_metrics.py:98-167 | two runs with equally many edges and no repeated edge give edge sets of equal size |
| CascadeSimilarity.EdgeSet | code/data_analysis/calculate_cascade_similarity_metrics.py:164-166 | the edge set holds exactly the edges of the list |
| CascadeSimilarity.DistinctCard | code/data_analysis/calculate_cascade_similarity_metrics.py:164-166 | a list without repeated edges gives an edge set of its length |
| CascadeSimilarity.Combinations2 | code/data_analysis/calculate_cascade_similarity_metrics.py:179 | n(n - 1)/2 pairs, holding every pair of positions i < j and nothing else |
| CascadeSimilarity.Comparisons | code/data_analysis/calculate_cascade_similarity_metrics.py:152-179 | a cascade with a single version is skipped; otherwise exactly the n(n - 1)/2 pairs of versions i < j (Combinations2), or the time-inferred tree against each version in order |
| CascadeSimilarity.AllMeasures | code/data_analysis/calculate_cascade_similarity_metrics.py:181-186 | succeeds exactly when every comparison's first set is non-empty, and then holds each comparison's measures in order |
| CascadeSimilarity.DirValue | code/data_analysis/calculate_cascade_similarity_metrics.py:140-141 | the value read from a directory name holds no underscore |
| CascadeSimilarity.DirValueRoundTrip | code/data_analysis/calculate_cascade_similarity_metrics.py:140-141 | a name "<prefix>_<value with points as underscores>" reads back as the value |
| CascadeSimilarity.GammaDirValue | code/data_analysis/calculate_cascade_similarity_metrics.py:140 | the gamma directory the reconstruction writes reads back as its gamma text |
| CascadeSimilarity.AlphaDirValue | code/data_analysis/calculate_cascade_similarity_metrics.py:141 | the alpha directory the reconstruction writes reads back as its alpha text |
| CentralityJaccard.CalcJaccardSimilarity | bluesky/code/data_analysis/006_calculate_centrality_jaccard.py:94-100 | fails with ZeroDivisionError exactly when both sets are empty; otherwise intersection size over union size |
| CentralityJaccard.JaccardProperties | bluesky/code/data_analysis/006_calculate_centrality_jaccard.py:94-100 | the similarity is symmetric, lies in [0, 1], and is 1 exactly when the sets are equal |
| CentralityJaccard.BiggerSetSize | bluesky/code/data_analysis/006_calculate_centrality_jaccard.py:143 | the larger of the two set sizes: at least each, and equal to one of them |
| CentralityJaccard.ExtractParams | bluesky/code/data_analysis/006_calculate_centrality_jaccard.py:43-72 | a non-integer version raises ValueError; gamma and alpha hold no underscore |
| CentralityJaccard.FieldAfter | bluesky/code/data_analysis/006_calculate_centrality_jaccard.py:65-67 | the field read after a marker holds no underscore |
| CentralityJaccard.FieldAfterOf | bluesky/code/data_analysis/006_calculate_centrality_jaccard.py:65-67 | after a marker found once, the field up to the next underscore is read exactly |
| CentralityJaccard.VersionField | bluesky/code/data_analysis/006_calculate_centrality_jaccard.py:65 | the version text is read back from a centrality file name |
| CentralityJaccard.GammaField | bluesky/code/data_analysis/006_calculate_centrality_jaccard.py:66 | the gamma text is read back from a centrality file name |
| CentralityJaccard.AlphaField | bluesky/code/data_analysis/006_calculate_centrality_jaccard.py:67 | the alpha text is read back from a centrality file name |
| CentralityJaccard.StemOfPath | bluesky/code/data_analysis/006_calculate_centrality_jaccard.py:64 | the directory and the ".parquet" extension are stripped off exactly |
| CentralityJaccard.ExtractParamsRoundTrip | bluesky/code/data_analysis/006_calculate_centrality_jaccard.py:43-72 | a file named "network_v_<v>_gamma_<g>_alpha_<a>.parquet" reads back as (v, g, a) in any directory |
| CentralityJaccard.ExtractParamsExample | bluesky/code/data_analysis/006_calculate_centrality_jaccard.py:47-48 | the docstring path gives version 100, gamma "0.5" and alpha "1.1" |
| GenerateNetworks.CascadeFileName | midterm/code/data_analysis/002_generate_networks.py:86-97 | a cascade with exactly 100 files contributes its version's own file to that version; any other cascade contributes "v_001.gmlz" |
| GenerateNetworks.VersionFiles | midterm/code/data_analysis/002_generate_networks.py:84-97 | one path per cascade of the map, in the map's order |
| GenerateNetworks.GenerateNetVerPathsMap | midterm/code/data_analysis/002_generate_networks.py:63-98 | the keys are exactly the versions 1 .. n_versions (none for an empty map), each holding one path per cascade |
| GenerateNetworks.AppendVersionPaths | midterm/code/data_analysis/002_generate_networks.py:84-97 | the inner loop sets the entry of one version to its list of paths and leaves the other entries alone |
| GenerateNetworks.AppendStep | midterm/code/data_analysis/002_generate_networks.py:88-96 | one append makes the version's entry one path longer |
| GenerateNetworks.FallbackIsFirstVersion | midterm/code/data_analysis/002_generate_networks.py:87-96 | the fallback file is the file of version 1 |
| GenerateNetworks.CascadeFilesPerVersion | midterm/code/data_analysis/002_generate_networks.py:86-97 | a 100-file cascade feeds a different file into every version; any other cascade feeds the same file into all of them |
| GenerateNetworks.AllEdges | midterm/code/data_analysis/002_generate_networks.py:118-124 | every edge of every loaded file is among the collected edges |
| GenerateNetworks.AllNames | midterm/code/data_analysis/002_generate_networks.py:117-121 | every vertex name of every loaded file is among the collected names |
| GenerateNetworks.CountEdges | midterm/code/data_analysis/002_generate_networks.py:133-135 | the counter is exactly the multiset of the edges |
| GenerateNetworks.GenerateNetwork | midterm/code/data_analysis/002_generate_networks.py:101-145 | the network carries its version, the union of all names, each distinct edge once, and each edge's weight is its multiplicity; the weights sum to the number of edges loaded |
| GenerateNetworks.EdgesJoinVertices | midterm/code/data_analysis/002_generate_networks.py:117-130 | when each file's edges join its own vertices, every merged edge joins two vertices of the network |
| GenerateNetworks.NetworkFileName | midterm/code/data_analysis/002_generate_networks.py:172-173 | "network_version_", the version in at least three digits, ".gmlz"; the version parses back from between them |
| NaiveNetwork.FirstRoot | midterm/code/data_analysis/004_generate_naive_network.py:49-50 | finds the first row flagged as root, or none exactly when no row is a root |
| NaiveNetwork.RootOf | midterm/code/data_analysis/004_generate_naive_network.py:50 | the root user taken is the user of a root row of the cascade |
| NaiveNetwork.Retweeters | midterm/code/data_analysis/004_generate_naive_network.py:51 | the retweeters are exactly the users of the non-root rows, at most one per row |
| NaiveNetwork.StarEdges | midterm/code/data_analysis/004_generate_naive_network.py:54 | pairs the root with each retweeter, one edge per retweeter, in order |
| NaiveNetwork.CascadeStar | midterm/code/data_analysis/004_generate_naive_network.py:49-54 | a cascade's star fails with an index error exactly when the cascade has no root |
| NaiveNetwork.CascadeStarShape | midterm/code/data_analysis/004_generate_naive_network.py:49-54 | a star fails exactly for a rootless cascade; otherwise it has one edge per retweeter, each from the root to a non-root member |
| NaiveNetwork.Stars | midterm/code/data_analysis/004_generate_naive_network.py:44-57 | collecting stars over the cascades can only fail with an index error |
| NaiveNetwork.StarsErrIff | midterm/code/data_analysis/004_generate_naive_network.py:44-57 | collecting stars fails exactly when some cascade is rootless |
| NaiveNetwork.StarsErrLast | midterm/code/data_analysis/004_generate_naive_network.py:44-57 | the collection over n cascades fails exactly when the first n-1 fail or the last star fails |
| NaiveNetwork.RootlessSomewhere | midterm/code/data_analysis/004_generate_naive_network.py:44-50 | a rootless cascade exists in a list exactly when one exists in its prefix or the last one is rootless |
| NaiveNetwork.StarsLength | midterm/code/data_analysis/004_generate_naive_network.py:57 | the collected edge list has one edge per retweet over all cascades |
| NaiveNetwork.StarsEdgeShape | midterm/code/data_analysis/004_generate_naive_network.py:54-57 | every collected edge runs from some cascade's root to a non-root member of that cascade |
| NaiveNetwork.CascadeRows | midterm/code/data_analysis/004_generate_naive_network.py:46 | the rows filtered for a cascade id are rows of the frame with that id |
| NaiveNetwork.UniqueIds | midterm/code/data_analysis/004_generate_naive_network.py:44 | the unique cascade ids are pairwise distinct and cover every row's id |
| NaiveNetwork.Members | midterm/code/data_analysis/004_generate_naive_network.py:49-51 | one (user, is_root) pair per row of the cascade, in row order |
| NaiveNetwork.CascadesOf | midterm/code/data_analysis/004_generate_naive_network.py:44-46 | one member list per unique id, holding that cascade's rows |
| NaiveNetwork.GenerateNaiveNetwork | midterm/code/data_analysis/004_generate_naive_network.py:28-77 | the loop over unique cascade ids builds the vertex set of all users, the distinct edges and the edge-count weights, or the index error of the first rootless cascade |
| NaiveNetwork.StarsErrPersists | midterm/code/data_analysis/004_generate_naive_network.py:44-57 | once the loop fails on a prefix of cascades, the whole run fails |
| NaiveNetwork.NaiveNetworkErrIff | midterm/code/data_analysis/004_generate_naive_network.py:44-50 | building the naive network fails exactly when some cascade id has no root row |
| NaiveNetwork.NaiveEdgesAreStars | midterm/code/data_analysis/004_generate_naive_network.py:40-62 | every network edge goes from a cascade's root to one of its retweeters, and both ends are vertices |
| NaiveNetwork.MemberUser | midterm/code/data_analysis/004_generate_naive_network.py:40 | every user of a cascade row is in the vertex set of all user ids |
| NaiveNetwork.NaiveTotalWeight | midterm/code/data_analysis/004_generate_naive_network.py:65-75 | the edge weights add up to the number of non-root rows: each retweet row counts once |
| NaiveNetwork.RetweetersCount | midterm/code/data_analysis/004_generate_naive_network.py:51 | a cascade has as many retweeters as non-root rows |
| NaiveNetwork.WithinSnoc | midterm/code/data_analysis/004_generate_naive_network.py:44-46 | the non-root rows over ids plus a fresh id add that cascade's non-root rows |
| NaiveNetwork.SumOverIds | midterm/code/data_analysis/004_generate_naive_network.py:44-57 | summing retweets over distinct cascade ids counts the non-root rows in those cascades |
| NaiveNetwork.WithinAll | midterm/code/data_analysis/004_generate_naive_network.py:44 | when the ids cover every row, filtering by them keeps every row |
| BlueskyNaiveNetwork.OriginalsIn | bluesky/code/data_analysis/004_generate_naive_network.py:49 | keeps exactly the rows whose uri is one of the listed uris |
| BlueskyNaiveNetwork.ResharesIn | bluesky/code/data_analysis/004_generate_naive_network.py:50 | keeps exactly the rows whose subject uri is one of the listed uris |
| BlueskyNaiveNetwork.Selected | bluesky/code/data_analysis/004_generate_naive_network.py:49-51 | the selected frame holds exactly the rows that are a listed post or a reshare of one |
| BlueskyNaiveNetwork.CascadeMembers | bluesky/code/data_analysis/004_generate_naive_network.py:59-66 | one (author, type is "post") pair per row of the cascade's originals followed by its reshares |
| BlueskyNaiveNetwork.CascadesOf | bluesky/code/data_analysis/004_generate_naive_network.py:57-61 | one member list per listed uri, in list order |
| BlueskyNaiveNetwork.Authors | bluesky/code/data_analysis/004_generate_naive_network.py:53 | every author of the frame is a vertex |
| BlueskyNaiveNetwork.GenerateNaiveNetwork | bluesky/code/data_analysis/004_generate_naive_network.py:32-92 | the loop over the uri list builds the author vertex set, the distinct star edges and their counts, or the index error of the first cascade without a post |
| BlueskyNaiveNetwork.CascadeRowsMembers | bluesky/code/data_analysis/004_generate_naive_network.py:59-66 | the loop-built member list of one cascade equals its specification |
| BlueskyNaiveNetwork.NaiveNetworkErrIff | bluesky/code/data_analysis/004_generate_naive_network.py:57-65 | building fails exactly when some listed uri has no "post" row in the selected frame |
| BlueskyNaiveNetwork.NaiveEdgesAreStars | bluesky/code/data_analysis/004_generate_naive_network.py:53-77 | every edge goes from a listed cascade's root author to one of its resharers, and both ends are vertices |
| BlueskyNaiveNetwork.FrameEdgesAreStars | bluesky/code/data_analysis/004_generate_naive_network.py:64-72 | every collected edge links a cascade's root author to a resharer, both authors of the frame |
| BlueskyNaiveNetwork.EdgeCascade | bluesky/code/data_analysis/004_generate_naive_network.py:57-72 | names the listed cascade an edge comes from |
| BlueskyNaiveNetwork.MemberAuthor | bluesky/code/data_analysis/004_generate_naive_network.py:53-66 | every member of a cascade is an author of the frame |
| BlueskyNaiveNetwork.NaiveTotalWeight | bluesky/code/data_analysis/004_generate_naive_network.py:80-90 | the edge weights add up to the number of reshares over all listed cascades |
| PowerLawAlpha.FirstAtMost | code/data_analysis/estimate_power_law_alpha.py:84-98 | the first threshold the size reaches, trying the largest first, or none exactly when it reaches none |
| PowerLawAlpha.ThresholdsDecrease | code/data_analysis/estimate_power_law_alpha.py:84-97 | the thresholds are tried in strictly decreasing order |
| PowerLawAlpha.HardKey | code/data_analysis/estimate_power_law_alpha.py:84-99 | a hard-split bucket exists exactly when the size is at least 1 |
| PowerLawAlpha.HardKeyIsLargest | code/data_analysis/estimate_power_law_alpha.py:84-97 | the hard-split bucket is the largest threshold not above the size |
| PowerLawAlpha.HardKeyValue | code/data_analysis/estimate_power_law_alpha.py:84-99 | the hard-split bucket for each size range, as the elif chain picks it |
| PowerLawAlpha.AtMost | code/data_analysis/estimate_power_law_alpha.py:103-116 | the soft-split keys are exactly the thresholds not above the size |
| PowerLawAlpha.Extend | code/data_analysis/estimate_power_law_alpha.py:80-85 | extending a defaultdict list appends the differences under one key, creating it if absent, and leaves every other key alone |
| PowerLawAlpha.GenerateMinRtsDict | code/data_analysis/estimate_power_law_alpha.py:49-118 | the loop over cascades builds the grouped dictionary, or the ValueError of a hard split meeting a size below 1 |
| PowerLawAlpha.HardStep | code/data_analysis/estimate_power_law_alpha.py:80-97 | under a hard split a cascade extends key -1 and its single bucket |
| PowerLawAlpha.SoftStep | code/data_analysis/estimate_power_law_alpha.py:80-116 | under a soft split a cascade extends key -1, then each threshold in turn when its size reaches it |
| PowerLawAlpha.SoftTail | code/data_analysis/estimate_power_law_alpha.py:109-116 | the last four soft-split tests, for 1000, 100, 10 and 1 |
| PowerLawAlpha.AtMostStep | code/data_analysis/estimate_power_law_alpha.py:103-116 | one threshold test extends that key exactly when the size reaches it |
| PowerLawAlpha.HardSplitFails | code/data_analysis/estimate_power_law_alpha.py:98-99 | a hard split raises ValueError at the first cascade with size below 1 |
| PowerLawAlpha.ErrPersists | code/data_analysis/estimate_power_law_alpha.py:75-99 | once the loop has raised, the whole call raises |
| PowerLawAlpha.AtMostDecreasing | code/data_analysis/estimate_power_law_alpha.py:103-116 | the soft-split keys keep the decreasing threshold order |
| PowerLawAlpha.KeysForReceives | code/data_analysis/estimate_power_law_alpha.py:79-116 | the keys a cascade extends are exactly those it belongs to, each once |
| PowerLawAlpha.HardKeysFor | code/data_analysis/estimate_power_law_alpha.py:79-97 | under a hard split a cascade extends key -1 and its bucket, each once |
| PowerLawAlpha.SoftKeysFor | code/data_analysis/estimate_power_law_alpha.py:79-116 | under a soft split a cascade extends key -1 and every threshold it reaches, each once |
| PowerLawAlpha.DecreasingKeys | code/data_analysis/estimate_power_law_alpha.py:80-116 | key -1 followed by the reached thresholds has no repeated key |
| PowerLawAlpha.LookupExtendAll | code/data_analysis/estimate_power_law_alpha.py:80-116 | extending distinct keys appends the differences to those keys only and adds them to the dictionary |
| PowerLawAlpha.MinRtsDictContents | code/data_analysis/estimate_power_law_alpha.py:49-118 | each key holds, in input order, the differences of exactly the cascades that belong to it, and is present exactly when some cascade belongs to it |
| PowerLawAlpha.ReceivedSomewhere | code/data_analysis/estimate_power_law_alpha.py:75-116 | some cascade belongs to a key exactly when one of the earlier cascades or the last one does |
| PowerLawAlpha.MinRtsDictErrIff | code/data_analysis/estimate_power_law_alpha.py:83-99 | the call raises, always a ValueError, exactly when the split is hard and some cascade has size below 1 |
| PowerLawAlpha.SmallSomewhere | code/data_analysis/estimate_power_law_alpha.py:96-99 | a size below 1 occurs exactly when it occurs earlier or in the last cascade |
| PowerLawAlpha.MinRtsDictOkStep | code/data_analysis/estimate_power_law_alpha.py:75-99 | one more cascade succeeds exactly when the earlier ones did and it is not a hard-split size below 1 |
| PowerLawAlpha.AllCascadesKey | code/data_analysis/estimate_power_law_alpha.py:79-80 | key -1 holds every cascade's differences in order, and is present whenever there is a cascade |
| PowerLawAlpha.ContributionsToAll | code/data_analysis/estimate_power_law_alpha.py:79-80 | every cascade contributes to key -1 |
| PowerLawAlpha.ReceivingKeys | code/data_analysis/estimate_power_law_alpha.py:62-116 | with a hard split a cascade lands only in the largest threshold it reaches; with a soft split in every threshold it reaches; below 1 in none |
| MidtermUtils.Walk | midterm/code/package/midterm/utils.py:126-137 | an empty path gives the value itself, and the only failure is the TypeError of an unhashable key |
| MidtermUtils.GetDictValOf | midterm/code/package/midterm/utils.py:120-137 | a non-dict dictionary or a non-list key list raises TypeError, and an empty key list returns the dictionary |
| MidtermUtils.GetDictVal | midterm/code/package/midterm/utils.py:69-137 | the loop that reassigns retval returns what walking the key path gives |
| MidtermUtils.WalkConcat | midterm/code/package/midterm/utils.py:127-137 | walking a path in two parts is walking the first part and then the second from where it ends |
| MidtermUtils.StepIn | midterm/code/package/midterm/utils.py:132-133 | a key present at the current dict level moves to its value |
| MidtermUtils.MissingKeyGivesNone | midterm/code/package/midterm/utils.py:135-136 | a key missing at the current dict level yields None, whatever keys follow |
| MidtermUtils.NonDictGivesNone | midterm/code/package/midterm/utils.py:128-130 | reaching a non-dict before the keys run out yields None |
| MidtermUtils.StringKeysNeverFail | midterm/code/package/midterm/utils.py:127-137 | a path of string keys never raises |
| MidtermUtils.ExampleDictionary | midterm/code/package/midterm/utils.py:90-102 | the docstring's example dictionary has a nested dict under "b" |
| MidtermUtils.DocumentedExamples | midterm/code/package/midterm/utils.py:103-118 | ['b','c'] gives 2 and ['b','k'] gives None on the docstring's dictionary |
| MidtermUtils.DescendOne | midterm/code/package/midterm/utils.py:127-133 | looking up [key] + path equals looking up path in the nested dict under key |
| TweetModel.UrlOf | midterm/code/package/midterm/data_model.py:165-170 | a string expanded_url is kept unless it contains "twitter.com", in which case url is used; a missing or None expanded_url also falls back to url (None when absent); a non-dict item raises TypeError |
| TweetModel.HashtagText | midterm/code/package/midterm/data_model.py:188 | a hashtag object gives its "text", a KeyError when it has none, a TypeError when it is not a dict |
| TweetModel.PathValue | midterm/code/package/midterm/data_model.py:39-57 | a path of string keys through a post always has a value under get_dict_val |
| TweetModel.PreferExtended | midterm/code/package/midterm/data_model.py:129-186 | reads a key path from the extended tweet when the post holds one, from the post otherwise |
| TweetModel.Tweet.constructor | midterm/code/package/midterm/data_model.py:17-37 | binds the post object, and sets each of the quote, retweet and extended flags exactly when its nested object is given |
| TweetModel.Tweet.New | midterm/code/package/midterm/data_model.py:17-37 | wrapping raises TypeError exactly when the value is not wrappable (a non-container, or a container whose `in` test finds a key whose nested value is not wrappable); otherwise a fresh tweet of that post whose flags and nested tweets match its keys |
| TweetModel.Tweet.GetValue | midterm/code/package/midterm/data_model.py:39-57 | reading a key path equals get_dict_val on the post object, and raises TypeError when the post object is not a dictionary |
| TweetModel.Tweet.IsValid | midterm/code/package/midterm/data_model.py:59-69 | the loop with early return is true exactly when id_str, user, text and created_at are all `in` the post object (keys of a dict, substrings of a string, elements of a list) |
| TweetModel.Tweet.GetRetweetedPostID | midterm/code/package/midterm/data_model.py:107-116 | the retweeted post's id for a retweet, else the quoted post's id for a quote, else None |
| TweetModel.Tweet.GetRetweetedUserID | midterm/code/package/midterm/data_model.py:118-127 | the retweeted user's id for a retweet, else the quoted user's id for a quote, else None |
| TweetModel.Tweet.GetText | midterm/code/package/midterm/data_model.py:129-139 | full_text of the extended tweet when present, otherwise text; TypeError when the object read is not a dictionary |
| TweetModel.Tweet.EntitiesAt | midterm/code/package/midterm/data_model.py:158-186 | entity lists are read from the extended tweet when present, otherwise from the post |
| TweetModel.Tweet.GetUrls | midterm/code/package/midterm/data_model.py:147-172 | the loop that appends to url_list yields one entry per URL object of the preferred entities |
| TweetModel.Tweet.GetHashtags | midterm/code/package/midterm/data_model.py:174-190 | the comprehension over the preferred hashtag entities |
| TweetModel.UrlsShape | midterm/code/package/midterm/data_model.py:157-172 | no URL objects give an empty list; an entities object that cannot be read raises TypeError; otherwise one URL per object, each chosen as the expanded-or-short rule says |
| TweetModel.HashtagsShape | midterm/code/package/midterm/data_model.py:176-190 | absent hashtag entities leave the result unbound (NameError) and only then; an entities object that cannot be read raises TypeError; otherwise each hashtag object's text, in order |
| TweetModel.HashtagErrors | midterm/code/package/midterm/data_model.py:188 | reading hashtag texts can only fail with TypeError or KeyError |
| TweetModel.LinkToPost | midterm/code/package/midterm/data_model.py:192-197 | with a string screen name and id the link is https://twitter.com/ + screen name + /status/ + post id |
| TweetModel.Tweet.GetLinkToPost | midterm/code/package/midterm/data_model.py:192-197 | raises TypeError when the post object is not a dictionary |
| TweetModel.ConstructsCases | midterm/code/package/midterm/data_model.py:17-37 | None, booleans and numbers are never wrappable; a string is exactly when none of the three keys is a substring of it, a list exactly when none is an element; a wrappable dict's quoted status is wrappable |
| ExtractTweetData.Tagged | midterm/code/003_extract_tweet_data.py:164-174 | one record per value, each the shared base information with that value |
| ExtractTweetData.NestedIdNeedsDict | midterm/code/003_extract_tweet_data.py:130-151 | a quoted id found by path lookup comes from a quoted status that is a dictionary |
| ExtractTweetData.BaseInfoOf | midterm/code/003_extract_tweet_data.py:109-154 | raises TypeError exactly for a retweet of a quote whose retweeted object is not a dictionary; a quoted post id is only picked up from a quoted status that is a dictionary |
| ExtractTweetData.ExtractedOf | midterm/code/003_extract_tweet_data.py:97-219 | the stream raises NameError exactly when its first line cannot be decoded or wrapped (the handler reads the unbound `tweet`); otherwise no more posts are counted as skipped than there are lines |
| ExtractTweetData.LineOutcome | midterm/code/003_extract_tweet_data.py:99-216 | a line that does not decode or wrap emits nothing and is counted as skipped |
| ExtractTweetData.AppendTagged | midterm/code/003_extract_tweet_data.py:164-167 | the loop that appends one deep copy per value adds exactly the tagged records |
| ExtractTweetData.EmitEntities | midterm/code/003_extract_tweet_data.py:158-174 | appends the text record, the hashtag records and the URL records of one tweet, in that order, and reports a raised error |
| ExtractTweetData.ClassifyTweet | midterm/code/003_extract_tweet_data.py:109-154 | the base information and quoted post id the retweet/quote branches set, or the TypeError of reading a non-dictionary retweeted object |
| ExtractTweetData.ExtractTweet | midterm/code/003_extract_tweet_data.py:99-216 | the statements for one line emit what the per-line outcome says, and bind `tweet` exactly when the line decodes and wraps |
| ExtractTweetData.EmitQuote | midterm/code/003_extract_tweet_data.py:178-209 | a quoted post adds its own text, hashtag and URL records under the quote information |
| ExtractTweetData.TweetOutcomeReadable | midterm/code/003_extract_tweet_data.py:109-209 | a readable post emits its own entity records, then the quoted post's when its own did not raise and a quoted id was found |
| ExtractTweetData.QuotedObject | midterm/code/003_extract_tweet_data.py:180 | the quoted status read through get_value is the nested object itself, a post in turn |
| ExtractTweetData.ExtractEntities | midterm/code/003_extract_tweet_data.py:73-219 | the loop over lines returns the text, hashtag and URL lists and skip count the per-line outcomes give, or NameError when the first line fails before `tweet` is bound |
| ExtractTweetData.UnreadablePostsEmitNothing | midterm/code/003_extract_tweet_data.py:99-216 | a value Tweet() rejects, a valid non-dictionary post, or a post whose time, base information or text cannot be read emits nothing and is counted; an invalid post emits nothing and is not counted |
| ExtractTweetData.BaseTextRecord | midterm/code/003_extract_tweet_data.py:112-190 | a readable post's first text record is its own text with its own ids and time, and every later text record comes from the quoted status |
| ExtractTweetData.OutcomeTexts | midterm/code/003_extract_tweet_data.py:158-195 | a readable post emits its own text record, then the quoted post's text record when a quoted id was found, its own entities did not raise and the quoted text reads |
| ExtractTweetData.BaseInfoIds | midterm/code/003_extract_tweet_data.py:112-122 | the base information carries the post's id, user id and time and is not from the quoted status |
| ExtractTweetData.TweetTypes | midterm/code/003_extract_tweet_data.py:123-154 | a retweet is typed "retweet" with the retweeted ids and no quoted ids; a plain quote is typed "quote" with the quoted ids; otherwise "original"; a quoted id is picked up for quotes and quoted retweets |
| ExtractTweetData.QuotedRecords | midterm/code/003_extract_tweet_data.py:178-195 | a quoted post with a readable text adds a second text record with that text, typed "quote", from the quoted status, with the base ids and time and the quoted ids |
| ExtractTweetData.RetweetOnlyRecords | midterm/code/003_extract_tweet_data.py:137-174 | a plain retweet's records all come from the base post and are typed "retweet" |
| ExtractTweetData.EntitiesInfo | midterm/code/003_extract_tweet_data.py:158-174 | every record emitted for one post carries the same information |
| ExtractTweetData.EntitiesTexts | midterm/code/003_extract_tweet_data.py:158-160 | a post's entities hold its own text record when the text reads, and otherwise none, having raised |
| ExtractTweetData.EntityRecords | midterm/code/003_extract_tweet_data.py:162-174 | a readable post's hashtag and URL records start with one record per hashtag and per URL, in order |
| ExtractTweetData.CountBase | midterm/code/003_extract_tweet_data.py:121-190 | counts the records not taken from a quoted status |
| ExtractTweetData.CountBaseConcat | midterm/code/003_extract_tweet_data.py:160-195 | counting base records distributes over appending |
| ExtractTweetData.ReadableLines | midterm/code/003_extract_tweet_data.py:99-160 | counts the lines that decode to a readable post |
| ExtractTweetData.OneBaseText | midterm/code/003_extract_tweet_data.py:99-160 | a line contributes one base text record exactly when it decodes to a readable post |
| ExtractTweetData.OneUnquotedFirst | midterm/code/003_extract_tweet_data.py:160-195 | a text list whose first record alone is from the base post has one base record |
| ExtractTweetData.AllQuoted | midterm/code/003_extract_tweet_data.py:190-195 | records all from quoted statuses count no base records |
| ExtractTweetData.ExtractedStep | midterm/code/003_extract_tweet_data.py:97-219 | a stream that does not raise extends the records of all lines but the last by those of the last |
| ExtractTweetData.OneBaseTextPerTweet | midterm/code/003_extract_tweet_data.py:97-219 | when the stream does not raise, the output holds exactly one base text record per line that decodes to a readable post |
| ExtractCascadeData.InSample | midterm/code/data_extraction/002_extract_cascade_data.py:89-119 | testing an id against the sampled set succeeds exactly for a hashable id, and is true exactly for a sampled string id |
| ExtractCascadeData.RecordOf | midterm/code/data_extraction/002_extract_cascade_data.py:99-157 | a record carries the cascade id, tweet id, root flag, user id, timestamp and text it is built from; it raises the timestamp's error, or TypeError for an unreadable text, and only then |
| ExtractCascadeData.Step | midterm/code/data_extraction/002_extract_cascade_data.py:81-159 | a value Tweet() rejects, an original post that is not a dictionary and a retweet whose retweeted object is not a dictionary raise TypeError |
| ExtractCascadeData.LineStep | midterm/code/data_extraction/002_extract_cascade_data.py:81 | a line that does not decode as JSON raises ValueError |
| ExtractCascadeData.ExtractCascadeData | midterm/code/data_extraction/002_extract_cascade_data.py:60-161 | the loop over lines, appending to records and seen_cascades, returns the records the line-by-line scan gives or the first error it raises |
| ExtractCascadeData.ScanLine | midterm/code/data_extraction/002_extract_cascade_data.py:81-159 | the statements for one decoded line update records, seen cascades and the tweet_id variable as one scan step, raising where the step raises |
| ExtractCascadeData.RecordFrom | midterm/code/data_extraction/002_extract_cascade_data.py:99-157 | building a record dictionary from a wrapped post gives the record, or raises, as the record of that post says |
| ExtractCascadeData.ScanErrPersists | midterm/code/data_extraction/002_extract_cascade_data.py:77-159 | once a prefix of the stream has raised, the whole call raises the same error |
| ExtractCascadeData.UnwrappableLineRaises | midterm/code/data_extraction/002_extract_cascade_data.py:77-159 | once the lines before it went through, an undecodable line ends the call with ValueError, and an unwrappable line or unreadable id with TypeError |
| ExtractCascadeData.AddLeafKeepsInv | midterm/code/data_extraction/002_extract_cascade_data.py:127-138 | appending a non-root record of a sampled cascade keeps the record invariant |
| ExtractCascadeData.AddRootKeepsInv | midterm/code/data_extraction/002_extract_cascade_data.py:99-159 | appending the root of an unseen sampled cascade and marking it seen keeps the record invariant |
| ExtractCascadeData.StepKeepsInv | midterm/code/data_extraction/002_extract_cascade_data.py:84-159 | every line keeps the invariant: records are of sampled cascades, roots have tweet id equal to cascade id, seen cascades are exactly those with a root, and no cascade has two roots |
| ExtractCascadeData.ScanKeepsInv | midterm/code/data_extraction/002_extract_cascade_data.py:74-161 | the record invariant holds after the whole stream |
| ExtractCascadeData.RootsAreUnique | midterm/code/data_extraction/002_extract_cascade_data.py:60-161 | every record belongs to a sampled cascade, every root record's tweet id is its cascade id, and no cascade gets two root records |
| ExtractCascadeData.OriginalPostStep | midterm/code/data_extraction/002_extract_cascade_data.py:84-113 | an original post appends its root record exactly when it is sampled and unseen, and otherwise leaves the records alone |
| ExtractCascadeData.RetweetStep | midterm/code/data_extraction/002_extract_cascade_data.py:115-159 | a retweet of an unsampled post changes nothing; otherwise it appends a non-root record of the retweeted cascade, then the retweeted post as root if that cascade was unseen |
| ExtractCascadeData.BoundTweetId | midterm/code/data_extraction/002_extract_cascade_data.py:85-130 | after the scan, the tweet_id variable holds the id of the last original post, if any |
| ExtractCascadeData.StaleRetweetId | midterm/code/data_extraction/002_extract_cascade_data.py:84-130 | a sampled retweet before any original post raises NameError; otherwise its record's tweet id is the last original post's id, not its own |
| ExtractCascadeData.StaleTweetIdCounterexample | midterm/code/data_extraction/002_extract_cascade_data.py:84-130 | a stream holding one retweet of sampled post "1" raises NameError as written, while the intended scan succeeds |
| ExtractCascadeData.IntendedRetweetRecord | midterm/code/data_extraction/002_extract_cascade_data.py:126-138 | with the retweet's own id, a sampled retweet always yields a non-root record whose tweet id is the retweet's id |
| ExtractCascadeData.DropDuplicates | midterm/code/data_extraction/002_extract_cascade_data.py:183-185 | dropping duplicate rows keeps exactly the same set of records, with no record twice |
| ExtractCascadeData.ClampFollowers | midterm/code/data_extraction/002_extract_cascade_data.py:189-195 | a negative follower count becomes 0 and nothing else changes |
| ExtractCascadeData.CleanRecords | midterm/code/data_extraction/002_extract_cascade_data.py:180-195 | after de-duplication and clamping, one record per distinct record and no negative follower count |
| SampleCascades.DaysInMonth | midterm/code/data_extraction/001_sample_cascades.py:67-68 | a month has 28 to 31 days, and February has 29 exactly in leap years, as strptime's calendar checks |
| SampleCascades.DaysBeforeMonth | midterm/code/data_extraction/001_sample_cascades.py:67-68 | the days before a month accumulate the month lengths, and the twelve months fill the year |
| SampleCascades.Ordinal | midterm/code/data_extraction/001_sample_cascades.py:67-68 | a valid date's day number is at least 1 |
| SampleCascades.NextDay | midterm/code/data_extraction/001_sample_cascades.py:73 | the day after a date is in the same year or the next |
| SampleCascades.YearLength | midterm/code/data_extraction/001_sample_cascades.py:73 | consecutive years start 365 or 366 days apart |
| SampleCascades.OrdinalNextDay | midterm/code/data_extraction/001_sample_cascades.py:73 | adding one day (timedelta(days=1)) gives a valid date whose day number is one more |
| SampleCascades.MonthField | midterm/code/data_extraction/001_sample_cascades.py:67-68 | the "%m" field reads a month from 1 to 12 in one or two characters, a one-character field being that digit |
| SampleCascades.DayField | midterm/code/data_extraction/001_sample_cascades.py:67-68 | the "%d" field reads a day from 1 to 31 in one or two characters (two for a space-padded day), a one-character field being that digit |
| SampleCascades.ParseDay | midterm/code/data_extraction/001_sample_cascades.py:67-68 | parsing "%Y-%m-%d" fails only with ValueError; a parsed text has 8 to 10 characters, starts with four digits and a dash, and gives a day number between 1 and that of 9999-12-31 |
| SampleCascades.TwoDigits | midterm/code/data_extraction/001_sample_cascades.py:67-68 | two digits read as ten times the first plus the second |
| SampleCascades.ZeroPaddedParse | midterm/code/data_extraction/001_sample_cascades.py:67-68 | a zero-padded "YYYY-MM-DD" text parses exactly when the date exists, to that date's day number, and otherwise raises ValueError |
| SampleCascades.Year2022 | midterm/code/data_extraction/001_sample_cascades.py:67-68 | the digits "2022" read as 2022 |
| SampleCascades.OneDigitFieldsParse | midterm/code/data_extraction/001_sample_cascades.py:67-68 | "2022-1-2" parses, as 2 January 2022 |
| SampleCascades.SpacePaddedDayParses | midterm/code/data_extraction/001_sample_cascades.py:67-68 | "2022-01- 2" parses, as 2 January 2022 |
| SampleCascades.LeftOverRefused | midterm/code/data_extraction/001_sample_cascades.py:67-68 | "2022-01-123" raises ValueError, since text is left over after the day |
| SampleCascades.MonthThirteenRefused | midterm/code/data_extraction/001_sample_cascades.py:67-68 | "2022-13-01" raises ValueError |
| SampleCascades.PaddedDigits | midterm/code/data_extraction/001_sample_cascades.py:67-68 | a zero-padded number is all digits of the padded width and reads back as the number |
| SampleCascades.ParseFormatDay | midterm/code/data_extraction/001_sample_cascades.py:67-68 | parsing the "%Y-%m-%d" text of a valid date gives that date's day number |
| SampleCascades.DateBetween | midterm/code/data_extraction/001_sample_cascades.py:52-76 | an unparseable start or end date raises |
| SampleCascades.DateBetweenWindow | midterm/code/data_extraction/001_sample_cascades.py:52-76 | for formatted dates, the target is in range exactly when it lies between the start date's midnight and the midnight after the end date, both inclusive |
| SampleCascades.DateBetweenOrdinals | midterm/code/data_extraction/001_sample_cascades.py:66-76 | with parsed start and end days, the test is start midnight <= target <= midnight of the day after the end |
| SampleCascades.MaxOrdinalIsLastDay | midterm/code/data_extraction/001_sample_cascades.py:73 | the largest day number is that of 9999-12-31 |
| SampleCascades.OrdinalAtMostLast | midterm/code/data_extraction/001_sample_cascades.py:73 | no valid date is later than 9999-12-31 |
| SampleCascades.YearOrdering | midterm/code/data_extraction/001_sample_cascades.py:73 | later years start later |
| SampleCascades.CascadeWindow | midterm/code/data_extraction/001_sample_cascades.py:45-105 | the cascade window is from midnight of 2022-11-02 up to midnight of 2022-11-09, both inclusive |
| SampleCascades.CasDatesFormatted | midterm/code/data_extraction/001_sample_cascades.py:45-46 | the window's dates are the "%Y-%m-%d" texts of 2022-11-02 and 2022-11-08 |
| SampleCascades.CountValue | midterm/code/data_extraction/001_sample_cascades.py:108-109 | max against a stored integer works for an int or bool retweet count and raises otherwise |
| SampleCascades.CountStatus | midterm/code/data_extraction/001_sample_cascades.py:106-117 | a status is counted only under its own id_str; a hashable id with an integer count is counted with that count |
| SampleCascades.LineOutcomeCases | midterm/code/data_extraction/001_sample_cascades.py:98-117 | an original post is counted as itself; a retweet counts its retweeted status exactly when that status was created inside the window |
| SampleCascades.WindowedLineOutcome | midterm/code/data_extraction/001_sample_cascades.py:98-117 | for any window test that never raises, an original post is counted as itself and a retweet counts its retweeted status exactly when that status was created inside the window |
| SampleCascades.FileRun | midterm/code/data_extraction/001_sample_cascades.py:95-121 | a file yields at most one observation per line |
| SampleCascades.FileRunStep | midterm/code/data_extraction/001_sample_cascades.py:96-121 | one line skips, counts, or raises and ends the file, keeping the default 0 entry it may have created |
| SampleCascades.TallySnoc | midterm/code/data_extraction/001_sample_cascades.py:108-110 | one more observation stores the larger of its count and the previous value |
| SampleCascades.CountFileStep | midterm/code/data_extraction/001_sample_cascades.py:96-121 | the counter after one more line of the file is the running maximum update of that line's outcome |
| SampleCascades.FileRunRaisedPersists | midterm/code/data_extraction/001_sample_cascades.py:94-121 | once a line raises, the rest of the file is skipped |
| SampleCascades.TallyIsMax | midterm/code/data_extraction/001_sample_cascades.py:108-117 | every observed id is stored with at least each count seen for it; stored values are never negative; each stored value is 0 or one of the counts seen |
| SampleCascades.TallyNeverDecreases | midterm/code/data_extraction/001_sample_cascades.py:108-117 | more lines never remove an id nor lower its stored count |
| SampleCascades.SamplePool | midterm/code/data_extraction/001_sample_cascades.py:144-146 | the pool only holds ids of the counter |
| SampleCascades.PoolMembers | midterm/code/data_extraction/001_sample_cascades.py:144-146 | an id is in the pool exactly when some observation reported at least one retweet for it |
| SampleCascades.CountLine | midterm/code/data_extraction/001_sample_cascades.py:97-117 | the statements for one line compute its outcome |
| SampleCascades.GetCascadeIdCounter | midterm/code/data_extraction/001_sample_cascades.py:79-122 | the loop over files returns the running maxima of all observations in the cascade window |
| SampleCascades.ApplyOutcome | midterm/code/data_extraction/001_sample_cascades.py:108-110 | applying one outcome to the defaultdict updates exactly the running maximum for its id |
| SampleCascades.CountFile | midterm/code/data_extraction/001_sample_cascades.py:94-121 | the loop over a file's lines feeds its observations into the counter, stopping at the first error |
| SampleCascades.CounterIsRunningMax | midterm/code/data_extraction/001_sample_cascades.py:79-146 | the counter holds exactly the observed ids, each with a non-negative value at least every count seen; the pool is exactly the ids seen with a count of at least 1 |
| CleanBlueskyData.ExtractFileDate | bluesky/code/data_cleaning/001_clean_bluesky_data.py:45-48 | the file date is the last path piece up to its first dot, so it holds no dot |
| CleanBlueskyData.FileDateOf | bluesky/code/data_cleaning/001_clean_bluesky_data.py:45-48 | for dir/date.ext with a plain date, the extracted date is that date |
| CleanBlueskyData.Texts | bluesky/code/data_cleaning/001_clean_bluesky_data.py:70 | the strings of a list of string values, one per item |
| CleanBlueskyData.LangToString | bluesky/code/data_cleaning/001_clean_bluesky_data.py:51-72 | a non-list is returned as is, a one-element list gives its element, a longer or empty list of strings is joined with "\|", and a join that raises (a non-string item) is caught and gives None |
| CleanBlueskyData.LangsRoundTrip | bluesky/code/data_cleaning/001_clean_bluesky_data.py:67-70 | splitting the joined codes on "\|" gives back the codes, when no code holds "\|" |
| CleanBlueskyData.UriToBskyUrl | bluesky/code/data_cleaning/001_clean_bluesky_data.py:75-102 | a value that is not a string, list or dict raises TypeError; a string without app.bsky.feed.post, or a list or dict that does not hold it, raises Exception; a list or dict that holds it raises AttributeError at `.split`; a string URI with fewer than five "/"-pieces raises IndexError |
| CleanBlueskyData.PostUriPieces | bluesky/code/data_cleaning/001_clean_bluesky_data.py:95-97 | a post URI splits on "/" into "at:", "", the did, the collection and the record key |
| CleanBlueskyData.PostUriMentionsPost | bluesky/code/data_cleaning/001_clean_bluesky_data.py:85 | a post URI passes the app.bsky.feed.post test |
| CleanBlueskyData.UrlOfPostUri | bluesky/code/data_cleaning/001_clean_bluesky_data.py:85-102 | the URL of a post URI is https://bsky.app/profile/ + did + /post/ + record key |
| CleanBlueskyData.UrlTailPieces | bluesky/code/data_cleaning/001_clean_bluesky_data.py:100 | the tail did/post/key splits into its three pieces |
| CleanBlueskyData.PostUrlPieces | bluesky/code/data_cleaning/001_clean_bluesky_data.py:91-100 | the URL splits on "/" into the scheme, the empty piece, the host, "profile", the did, "post" and the key, so the did and key can be read back |
| CleanBlueskyData.PostUrlScheme | bluesky/code/data_cleaning/001_clean_bluesky_data.py:91-100 | the URL is the scheme, two slashes and the host path |
| CleanBlueskyData.UrlHostPieces | bluesky/code/data_cleaning/001_clean_bluesky_data.py:91-100 | the host path splits into the host, "profile", the did, "post" and the key |
| CleanBlueskyData.OtherCollectionsRaise | bluesky/code/data_cleaning/001_clean_bluesky_data.py:85-88 | a URI of another collection, such as a like, raises |
| CleanBlueskyData.CleanPostOf | bluesky/code/data_cleaning/001_clean_bluesky_data.py:105-130 | a clean that does not raise leaves a string url and no subject |
| CleanBlueskyData.CleanRepost | bluesky/code/data_cleaning/001_clean_bluesky_data.py:120-127 | a repost gets subject_uri and subject_cid from its subject, the URL of the reposted post, and loses subject; every other field is unchanged |
| CleanBlueskyData.CleanOriginalPost | bluesky/code/data_cleaning/001_clean_bluesky_data.py:128-130 | an original post only gains the URL of its own URI |
| CleanBlueskyData.CleanKeepsOtherFields | bluesky/code/data_cleaning/001_clean_bluesky_data.py:105-130 | cleaning changes only subject, subject_uri, subject_cid and url |
| CleanBlueskyData.PostObject.constructor | bluesky/code/data_cleaning/001_clean_bluesky_data.py:105 | wraps the decoded record's fields |
| CleanBlueskyData.PostObject.CleanPost | bluesky/code/data_cleaning/001_clean_bluesky_data.py:105-130 | mutates the dict in place to the cleaned fields (including partial updates before a raise) and returns the same object, or the error raised |
| CleanBlueskyData.KeepRecord | bluesky/code/data_cleaning/001_clean_bluesky_data.py:155-177 | only a dict record can be kept |
| CleanBlueskyData.KeepRecordIff | bluesky/code/data_cleaning/001_clean_bluesky_data.py:155-177 | a record is kept exactly when it is a creation whose type mentions app.bsky and post, is not a reply and does not embed a record |
| CleanBlueskyData.PostTypesPass | bluesky/code/data_cleaning/001_clean_bluesky_data.py:157-159 | posts and reposts pass the type test, likes do not |
| CleanBlueskyData.PostTypeMentions | bluesky/code/data_cleaning/001_clean_bluesky_data.py:157-159 | app.bsky.feed.post mentions app.bsky and post |
| CleanBlueskyData.RepostTypeMentions | bluesky/code/data_cleaning/001_clean_bluesky_data.py:157-159 | app.bsky.feed.repost mentions app.bsky and post |
| CleanBlueskyData.CollectedErrPersists | bluesky/code/data_cleaning/001_clean_bluesky_data.py:147-183 | once a line raises outside the guarded clean, the file fails with that error |
| CleanBlueskyData.CollectRecords | bluesky/code/data_cleaning/001_clean_bluesky_data.py:146-183 | the loop over lines appends exactly the kept records that clean without raising, in order |
| CleanBlueskyData.CollectedRecordsShape | bluesky/code/data_cleaning/001_clean_bluesky_data.py:155-183 | every collected record is a creation, not a reply, and has a string url and no subject |
| CleanBlueskyData.CollectedRecordsStep | bluesky/code/data_cleaning/001_clean_bluesky_data.py:148-183 | one more line keeps the shape of the collected records |
| CleanBlueskyData.CleanedRecordShape | bluesky/code/data_cleaning/001_clean_bluesky_data.py:155-180 | a kept record that cleans without raising has the collected shape |
| CleanBlueskyData.TypeLabel | bluesky/code/data_cleaning/001_clean_bluesky_data.py:188-190 | the type column maps the post type to "post", the repost type to "repost" and anything else to NaN |
| CleanBlueskyData.FrameOf | bluesky/code/data_cleaning/001_clean_bluesky_data.py:186-191 | selecting the ten columns raises KeyError exactly when some column is in no record; otherwise one row per record with the mapped type and langs |
| CleanBlueskyData.NoRepostsNoFrame | bluesky/code/data_cleaning/001_clean_bluesky_data.py:186-187 | a file without any repost has no subject_uri column, so the selection raises KeyError |
| CleanBlueskyData.FrameTypes | bluesky/code/data_cleaning/001_clean_bluesky_data.py:188-190 | every row's type is "post", "repost" or NaN |
| CleanRawData.MapNone | code/data_cleaning/clean_raw_data_anon.py:83-99 | a value becomes missing exactly when it is the string "None" (or already missing); anything else is returned unchanged |
| CleanRawData.LowerCaseNoneKept | code/data_cleaning/clean_raw_data_anon.py:96 | only the exact string "None" is mapped; "none" is kept |
| CleanRawData.Veracity | code/data_cleaning/clean_raw_data_anon.py:34-144 | the veracity map gives "false" exactly for False, 0, "FALSE" and "False", "true" exactly for True, 1 and "TRUE", "mixed" exactly for "MIXED", and missing for anything else |
| CleanRawData.VeracityMissing | code/data_cleaning/clean_raw_data_anon.py:41-144 | r_33, r_45, "True", "true" and "mixed" all map to missing |
| CleanRawData.UserItems | code/data_cleaning/clean_raw_data_anon.py:126-131 | the four user columns of a row |
| CleanRawData.InconsistentIndicesExact | code/data_cleaning/clean_raw_data_anon.py:125-136 | the collected indices are exactly the rows with some but not all user columns equal to "None", in increasing order |
| CleanRawData.NoneStrIndices | code/data_cleaning/clean_raw_data_anon.py:123-136 | the loop over rows collects the indices of the inconsistent rows |
| CleanRawData.Prepared | code/data_cleaning/clean_raw_data_anon.py:144-173 | mapping veracity and the user columns keeps one row per row |
| CleanRawData.MissingIds | code/data_cleaning/clean_raw_data_anon.py:164-176 | the cascades with missing information are exactly the ids of rows with a missing veracity (keep-all) or any missing cell (full) |
| CleanRawData.Select | code/data_cleaning/clean_raw_data_anon.py:165-225 | selecting by cascade id keeps exactly the rows whose id is (or is not) in the set, in order |
| CleanRawData.Count | code/data_cleaning/clean_raw_data_anon.py:222 | a cascade's length is at most the number of rows |
| CleanRawData.SelectKeepsCount | code/data_cleaning/clean_raw_data_anon.py:201-225 | selecting keeps every row of a cascade that is selected |
| CleanRawData.SelectCountStep | code/data_cleaning/clean_raw_data_anon.py:201-225 | one more row keeps the selected cascade length equal to the original |
| CleanRawData.CountSnoc | code/data_cleaning/clean_raw_data_anon.py:222 | appending a row adds one to its cascade's length |
| CleanRawData.LongIds | code/data_cleaning/clean_raw_data_anon.py:220-224 | the cascades kept are exactly the present ids with more than one row |
| CleanRawData.Cascades | code/data_cleaning/clean_raw_data_anon.py:180 | the cascades counted are exactly the present cascade ids of some row |
| CleanRawData.PreparedKeepsIds | code/data_cleaning/clean_raw_data_anon.py:144-173 | mapping veracity and the user columns leaves every cascade id, and so the set of cascades, unchanged |
| CleanRawData.SelectCascades | code/data_cleaning/clean_raw_data_anon.py:165-225 | selecting rows by cascade keeps exactly the cascades whose id is (or is not) in the set |
| CleanRawData.SavedRows | code/data_cleaning/clean_raw_data_anon.py:157-225 | the saved table never has more rows than the input |
| CleanRawData.CleanRows | code/data_cleaning/clean_raw_data_anon.py:179-232 | the run raises ZeroDivisionError exactly when the table has no cascade id, or, in full mode, every cascade has missing information; otherwise it yields the saved table |
| CleanRawData.KeepAllIff | code/data_cleaning/clean_raw_data_anon.py:157-201 | in keep-all mode a row is kept exactly when no row of its cascade has a missing veracity |
| CleanRawData.FullDropsWholeCascades | code/data_cleaning/clean_raw_data_anon.py:167-201 | in full mode a kept row's whole cascade has no missing cell |
| CleanRawData.FullHasNoMissing | code/data_cleaning/clean_raw_data_anon.py:176-201 | in full mode a kept row has no missing cell |
| CleanRawData.FullCascadesLong | code/data_cleaning/clean_raw_data_anon.py:201-225 | in full mode a kept row's cascade keeps all its rows and has more than one |
| CleanRawData.FullKeepsCompleteCascades | code/data_cleaning/clean_raw_data_anon.py:167-225 | in full mode every row of a complete cascade with more than one row is kept |
| CleanRawData.CompleteCascadeKept | code/data_cleaning/clean_raw_data_anon.py:191-225 | a complete cascade of length above 1 survives both the missing-data drop and the length-1 drop |
| CleanRawData.OutputNames | code/data_cleaning/clean_raw_data_anon.py:157-244 | keep-all mode writes two halves, full mode one file |
| ChunkForGithub.Limit | code/chunk_data_for_github.py:71-72 | the byte limit is the size in megabytes less the 5 MB buffer: 95,000,000 for the default 100, never negative from 5 MB up |
| ChunkForGithub.Utf8Width | code/chunk_data_for_github.py:81-83 | a character takes 1 to 4 bytes in UTF-8, one exactly for ASCII |
| ChunkForGithub.Utf8Size | code/chunk_data_for_github.py:81-83 | a line's UTF-8 size lies between its length and four times its length |
| ChunkForGithub.GreedyReplaceLast | code/chunk_data_for_github.py:86-88 | growing the last chunk keeps the chunks greedy |
| ChunkForGithub.GreedyAppend | code/chunk_data_for_github.py:89-93 | opening a new chunk with a line that did not fit keeps the chunks greedy |
| ChunkForGithub.TotalSnoc | code/chunk_data_for_github.py:87-88 | adding a line adds its size to the chunk's size |
| ChunkForGithub.FlattenSnoc | code/chunk_data_for_github.py:91 | appending a chunk appends its lines to the concatenation |
| ChunkForGithub.FoldLast | code/chunk_data_for_github.py:80-93 | the loop state after n lines is one step after n-1 lines |
| ChunkForGithub.FoldSize | code/chunk_data_for_github.py:78-93 | current_size is always the UTF-8 size of current_chunk |
| ChunkForGithub.FoldFlatten | code/chunk_data_for_github.py:80-93 | the closed chunks followed by the current chunk are the input lines, in order |
| ChunkForGithub.StepFlatten | code/chunk_data_for_github.py:85-93 | one step keeps the concatenation equal to the lines read so far |
| ChunkForGithub.FoldEmpty | code/chunk_data_for_github.py:76-93 | the current chunk is empty exactly when there were no lines, and then no chunk was closed |
| ChunkForGithub.FoldFits | code/chunk_data_for_github.py:85-93 | every chunk with two or more lines fits within the limit |
| ChunkForGithub.FoldGreedy | code/chunk_data_for_github.py:85-93 | every chunk after the first is non-empty and its first line would not have fitted into the previous chunk |
| ChunkForGithub.FoldEmptyFirst | code/chunk_data_for_github.py:86-92 | an empty first chunk is emitted exactly when the first line alone exceeds the limit |
| ChunkForGithub.FoldGood | code/chunk_data_for_github.py:80-93 | the loop state satisfies all of the chunking invariants |
| ChunkForGithub.ChunksOfSpec | code/chunk_data_for_github.py:69-99 | the chunks concatenate to the input, every multi-line chunk fits, the split is greedy, an empty first chunk appears exactly when the first line is too large, and no input gives no chunks |
| ChunkForGithub.SplitListIntoChunks | code/chunk_data_for_github.py:69-99 | the loop over the lines returns the chunks the greedy fold gives |
| ChunkForGithub.DefaultChunksFit | code/chunk_data_for_github.py:47-99 | with the default 100 MB, when every line fits alone every chunk fits |
| ChunkForGithub.FlattenMember | code/chunk_data_for_github.py:91-97 | every line of a chunk is a line of the concatenation |
| AuthorProfiles.ChunksFrom | bluesky/code/data_collection/003_collect_authors_profiles.py:32 | no slices start at or past the end of the list |
| AuthorProfiles.ChunkList | bluesky/code/data_collection/003_collect_authors_profiles.py:28-32 | a step of 0 raises ValueError (range step zero), a negative step gives no chunks |
| AuthorProfiles.ChunksFromSpec | bluesky/code/data_collection/003_collect_authors_profiles.py:32 | the slices from i concatenate to the rest of the list, all but the last have n items, the last has 1 to n |
| AuthorProfiles.ChunksFromCount | bluesky/code/data_collection/003_collect_authors_profiles.py:32 | the number of slices c satisfies (c-1)n < length <= cn |
| AuthorProfiles.ChunkListSpec | bluesky/code/data_collection/003_collect_authors_profiles.py:28-32 | for n > 0 the chunks concatenate to the list, all but the last have n items, the last 1 to n, there are ceil(length/n) of them, and none only for an empty list |
| AuthorProfiles.CeilDiv | bluesky/code/data_collection/003_collect_authors_profiles.py:32 | the slice count is the ceiling of length over n |
| AuthorProfiles.AuthorBatches | bluesky/code/data_collection/003_collect_authors_profiles.py:49-51 | the sorted authors are split into batches of 1 to 25 that together are the sorted authors |
| DetectCommunities.ConvertDirNameToNumeric | midterm/code/data_analysis/010_detect_communities.py:57-74 | a type other than "gamma" or "alpha" raises TypeError; otherwise the underscores of the tail become dots |
| DetectCommunities.DirNameRoundTrip | midterm/code/data_analysis/010_detect_communities.py:57-74 | a directory named type_ followed by a decimal with its dot written as "_" reads back as that decimal |
| DetectCommunities.PrefixRemoved | midterm/code/data_analysis/010_detect_communities.py:72 | removing "type_" from such a directory name leaves the decimal with "_" for its dot |
| DetectCommunities.ScriptGammaDirectories | midterm/code/data_analysis/010_detect_communities.py:46-117 | gamma_0_5, gamma_0_25 and gamma_0_75 read as 0.5, 0.25 and 0.75 |
| DetectCommunities.ScriptAlphaDirectories | midterm/code/data_analysis/010_detect_communities.py:47-120 | alpha_1_1, alpha_2_0 and alpha_3_0 read as 1.1, 2.0 and 3.0 |
| DetectCommunities.NetVersion | midterm/code/data_analysis/010_detect_communities.py:130-133 | the version read from a path holds no "/" |
| DetectCommunities.PieceSlashFree | midterm/code/data_analysis/010_detect_communities.py:131-133 | removing a piece from a slash-free name leaves it slash-free |
| DetectCommunities.NetVersionOf | midterm/code/data_analysis/010_detect_communities.py:130-133 | the version read from dir/network_version_<digits>.gmlz is the digits |
| DetectCommunities.VersionPrefixRemoved | midterm/code/data_analysis/010_detect_communities.py:132 | removing network_version_ from the file name leaves the digits and the extension |
| DetectCommunities.NetworkExtRemoved | midterm/code/data_analysis/010_detect_communities.py:133 | removing .gmlz from digits plus extension leaves the digits |
| DetectCommunities.NetVersionExample | midterm/code/data_analysis/010_detect_communities.py:95-130 | network_version_001.gmlz has version "001" |
| DetectCommunities.VersionEntries | midterm/code/data_analysis/010_detect_communities.py:129-140 | one entry per sorted file, with its version, the gamma and alpha values and its path |
| DetectCommunities.GetFilePathInfo | midterm/code/data_analysis/010_detect_communities.py:102-104 | a missing naive network file raises |
| DetectCommunities.AlphaEntriesVersioned | midterm/code/data_analysis/010_detect_communities.py:119-140 | every entry under one gamma directory carries its file's version, that gamma and an alpha |
| DetectCommunities.GammaEntriesVersioned | midterm/code/data_analysis/010_detect_communities.py:116-140 | every entry from the gamma and alpha directories carries its version, gamma and alpha |
| DetectCommunities.NaiveFirst | midterm/code/data_analysis/010_detect_communities.py:102-140 | the list starts with the naive network, with no version, gamma or alpha, and every later entry is versioned |
| DetectCommunities.HeadThenRest | midterm/code/data_analysis/010_detect_communities.py:107-140 | putting the naive entry first keeps every later entry versioned |
| DetectCommunities.AlphaEntriesOk | midterm/code/data_analysis/010_detect_communities.py:119-120 | well-named alpha directories never raise |
| DetectCommunities.GammaEntriesOk | midterm/code/data_analysis/010_detect_communities.py:116-120 | well-named gamma and alpha directories never raise |
| DetectCommunities.ScriptDirectoriesAccepted | midterm/code/data_analysis/010_detect_communities.py:46-140 | with the naive file present, the script's directories never raise |
| CosineSimilarityNames.Index | code/data_analysis/calculate_structure_metrics_cosine_similarity.py:94-95 | list.index gives the first position of the word and raises ValueError exactly when it is absent |
| CosineSimilarityNames.IndexAt | code/data_analysis/calculate_structure_metrics_cosine_similarity.py:94-95 | a word first found at position i has index i |
| CosineSimilarityNames.ExtractParametersFromFilename | code/data_analysis/calculate_structure_metrics_cosine_similarity.py:71-102 | a non-string raises ValueError; a string name succeeds exactly when its "_"-pieces include both gamma and alpha |
| CosineSimilarityNames.ParamsOfParts | code/data_analysis/calculate_structure_metrics_cosine_similarity.py:89-102 | with gamma first at i and alpha first at j, each value is the two pieces after its marker joined by a point |
| CosineSimilarityNames.TwoJoin | code/data_analysis/calculate_structure_metrics_cosine_similarity.py:98-99 | joining a two-piece slice with "." puts one point between them |
| CosineSimilarityNames.StemOf | code/data_analysis/calculate_structure_metrics_cosine_similarity.py:90 | the stem of dir/stem.parquet is the stem |
| CosineSimilarityNames.UnderscoredValue | code/data_analysis/calculate_structure_metrics_cosine_similarity.py:137-138 | a value with one point is written with an underscore in its place |
| CosineSimilarityNames.OutputBaseGammaEnded | code/data_analysis/calculate_structure_metrics_cosine_similarity.py:139 | the output name's fixed beginning ends in its only gamma word and holds no alpha |
| CosineSimilarityNames.OutputBaseWordsPlain | code/data_analysis/calculate_structure_metrics_cosine_similarity.py:139 | the words of the fixed beginning hold no "_", "." or "/" |
| CosineSimilarityNames.ValuesStemParts | code/data_analysis/calculate_structure_metrics_cosine_similarity.py:140 | a stem of plain words and values splits on "_" into the words, the gamma pieces, alpha and the alpha pieces |
| CosineSimilarityNames.ReadBack | code/data_analysis/calculate_structure_metrics_cosine_similarity.py:89-102 | a file whose stem carries the gamma and alpha digit pieces after their markers reads back as those values |
| CosineSimilarityNames.MarkersPlaced | code/data_analysis/calculate_structure_metrics_cosine_similarity.py:94-95 | in such a stem the first gamma and first alpha sit right before their value pieces |
| CosineSimilarityNames.OutputNameRoundTrip | code/data_analysis/calculate_structure_metrics_cosine_similarity.py:89-140 | the output name written for decimal gamma and alpha values reads back as those values |
| CosineSimilarityNames.TypedStemParts | code/data_analysis/calculate_structure_metrics_cosine_similarity.py:140 | the output stem with its cascade type splits into the words, the values, alpha and the type |
| CosineSimilarityNames.DocstringExample | code/data_analysis/calculate_structure_metrics_cosine_similarity.py:82-84 | cascade_metrics_statistics_gamma_0_25_alpha_1_1.parquet gives gamma 0.25 and alpha 1.1 |
| CosineSimilarityNames.DocstringDigits | code/data_analysis/calculate_structure_metrics_cosine_similarity.py:82 | the docstring's value pieces are digits |
| CosineSimilarityNames.BareStemReadBack | code/data_analysis/calculate_structure_metrics_cosine_similarity.py:82-102 | a statistics file name with digit value pieces and no type reads back as its values |
| CosineSimilarityNames.ValuesStemFree | code/data_analysis/calculate_structure_metrics_cosine_similarity.py:82-91 | such a stem splits into its words and values and holds no "/" or "." |
| CosineSimilarityNames.DocstringWordsGammaEnded | code/data_analysis/calculate_structure_metrics_cosine_similarity.py:82 | the docstring's file name begins cascade_metrics_statistics_gamma, with gamma its last and only gamma word |
| CosineSimilarityNames.DocstringValues | code/data_analysis/calculate_structure_metrics_cosine_similarity.py:84 | 0 and 25 join to "0.25"; 1 and 1 to "1.1" |
| CosineSimilarityNames.DigitsOnly | code/data_analysis/calculate_structure_metrics_cosine_similarity.py:98-99 | a digit piece holds no ".", "_" or "/" and is not the word alpha |
| NodeCentralities.LastWith | midterm/code/data_analysis/003_calculate_node_centralities.py:67-73 | the last component with the prefix, or none exactly when no component has it |
| NodeCentralities.PrefixesExclusive | midterm/code/data_analysis/003_calculate_node_centralities.py:68-71 | no component starts with both gamma_ and alpha_, so the elif never hides a match |
| NodeCentralities.ScanIsLast | midterm/code/data_analysis/003_calculate_node_centralities.py:64-73 | the loop over components leaves gamma and alpha bound to the values of the last gamma_ and alpha_ components |
| NodeCentralities.ParamsOf | midterm/code/data_analysis/003_calculate_node_centralities.py:43-78 | the parameters exist exactly when some component starts with gamma_ and some with alpha_, otherwise NameError (unbound variable); each value comes from the last such component |
| NodeCentralities.ExtractParams | midterm/code/data_analysis/003_calculate_node_centralities.py:63-78 | the loop over path components returns the parameters the last matching components give |
| NodeCentralities.DirectoryValue | midterm/code/data_analysis/003_calculate_node_centralities.py:68-73 | a parameter directory name starts with its prefix and its value reads back as written |
| NodeCentralities.LastWithAt | midterm/code/data_analysis/003_calculate_node_centralities.py:67-73 | a component with the prefix and none after it is the last one found |
| NodeCentralities.DirectoriesReadBack | midterm/code/data_analysis/003_calculate_node_centralities.py:43-78 | a network under gamma_<g>/alpha_<a>/ reads back as those values when no other component has either prefix |
| NodeCentralities.LayoutReadBack | midterm/code/data_analysis/003_calculate_node_centralities.py:64-78 | a path ending in a gamma directory, an alpha directory and a plain file name reads back as the two directory values |
| NodeCentralities.LayoutLastWith | midterm/code/data_analysis/003_calculate_node_centralities.py:67-73 | in that layout the gamma and alpha directories are the last components with their prefixes |
| NodeCentralities.DocstringExample | midterm/code/data_analysis/003_calculate_node_centralities.py:47-91 | .../midterm_networks/gamma_0_25/alpha_1_1/network_version_001.gmlz gives gamma 0.25, alpha 1.1 and version 1 |
| NodeCentralities.PlainWords | midterm/code/data_analysis/003_calculate_node_centralities.py:48 | the example's other components have neither prefix |
| NodeCentralities.NetworkFileNameSlashFree | midterm/code/data_analysis/003_calculate_node_centralities.py:89 | a network file name holds no "/" |
| NodeCentralities.NameAffixesSlashFree | midterm/code/data_analysis/003_calculate_node_centralities.py:89 | network_version_ and .gmlz hold no "/" |
| NodeCentralities.DigitsWithout | midterm/code/data_analysis/003_calculate_node_centralities.py:91 | a digit text holds no non-digit character |
| NodeCentralities.JoinSnoc | midterm/code/data_analysis/003_calculate_node_centralities.py:64 | joining one more component appends the separator and it |
| NodeCentralities.VersionOfNetworkFile | midterm/code/data_analysis/003_calculate_node_centralities.py:89-91 | the version read from network_version_<v:03>.gmlz is v, wherever the file is stored |
| NodeCentralities.VersionOfName | midterm/code/data_analysis/003_calculate_node_centralities.py:91 | the last "_"-piece of the name, cut at its first ".", is the digits |
| NodeCentralities.NetworkFilePieces | midterm/code/data_analysis/003_calculate_node_centralities.py:91 | the network file name regrouped around its last "_" and its "." |
| NodeCentralities.OutputNameReadBack | midterm/code/data_analysis/003_calculate_node_centralities.py:133-137 | the centrality file named for a version, gamma and alpha gives back those three values when read by name |
| ExtractEdgelists.EdgeRows | midterm/code/data_analysis/007_extract_edgelists.py:85-95 | one row per edge of the network |
| ExtractEdgelists.EdgeRowsAt | midterm/code/data_analysis/007_extract_edgelists.py:86-94 | row i holds the names of edge i's source and target vertices and its weight |
| ExtractEdgelists.RowsNameVertices | midterm/code/data_analysis/007_extract_edgelists.py:89-90 | every row's endpoints are vertex names of the network |
| ExtractEdgelists.CollectEdgeRows | midterm/code/data_analysis/007_extract_edgelists.py:85-94 | the loop over the edges appends exactly the edge rows, in edge order |
| ExtractEdgelists.EdgelistName | midterm/code/data_analysis/007_extract_edgelists.py:79-110 | a path mentioning naive is saved as edgelist_naive_network.parquet; otherwise a path without both parameters raises NameError, and the rest succeed exactly when the version parses |
| ExtractEdgelists.ExtractEdgelist | midterm/code/data_analysis/007_extract_edgelists.py:76-111 | one network's edge rows and the file name they are written to, or the error raised |
| ExtractEdgelists.VersionedNetworkName | midterm/code/data_analysis/007_extract_edgelists.py:79-110 | a reconstructed network under gamma_<g>/alpha_<a>/network_version_<v:03>.gmlz is saved as edgelist_v_<v:03>_gamma_<g>_alpha_<a>.parquet |
| ExtractEdgelists.NetworkPathVersion | midterm/code/data_analysis/007_extract_edgelists.py:98-105 | the version read from a stored network file is its version |
| ExtractEdgelists.NetworkFilePlain | midterm/code/data_analysis/007_extract_edgelists.py:58-64 | a network file name has no "/" and neither parameter prefix |
| ExtractEdgelists.MissingGammaFails | midterm/code/data_analysis/007_extract_edgelists.py:58-80 | a non-naive path without a gamma_ component raises NameError |

## Left out

- Numerical integration: `power_law` normalises the density `(xmin/x)**alpha` with `scipy.integrate.quad`. The model keeps the decay abstract, as a function on reals that is positive and strictly decreasing for positive arguments. `Reconstruction.PowerLawDensityDecreasing` shows that the density with a positive integer exponent is such a function. Real-valued exponents and floating-point rounding are not modelled.
- Curve fitting: `simulate_plaw_fits` and `bootstrap_ci` are random resampling and float percentiles. They are not modelled.
- Concurrency: the joblib and multiprocessing pools of the driver scripts are not modelled. Each version is an independent call of the per-run reconstruction.
- Randomness: the sampling distribution itself is not modelled. `np.random.choice` is an inverse-CDF lookup on a uniform sample given as a parameter. Uniform picks, `random.sample` and shuffles are likewise parameters, constrained only to their ranges.
- Graph libraries: igraph, networkx and clusim are not modelled. This covers GraphML reading and writing, centralities, Louvain communities, eccentricity, path lengths and breadth. Only the edge lists, vertex sets and file names around those calls are modelled.
- Frame plumbing: pandas and numpy operations are modelled only where they decide which records or edges are kept (dropping duplicates, filters, grouping edges into weights). Float statistics and similarity matrices are not modelled.
- Plotting is not modelled.
- I/O: these are not modelled. The model works on already-decoded values and file names.
  - reading and writing gzip, JSON, parquet, CSV and pickle files;
  - `os.makedirs` and the skipping of outputs that already exist;
  - directory listing, `glob` and `os.walk`, including `get_files_in_date_range` and `collect_files_recursively`;
  - the loggers.
- Network clients: the atproto `Client` of the profile collector and the OpenAlex requests are not modelled. Only the chunking of author lists is.
- Datetimes: `pd.to_datetime`, `Tweet.get_timestamp` and Twitter's "created_at" format are not modelled. Times are integers, and the conversion of a post's creation time is a function parameter. `strptime` is modelled only for the "%Y-%m-%d" dates of `date_between`.
- SampleCascades.ParseDay: `strptime` reads `\d` as any Unicode decimal digit. The model reads only the ASCII digits 0 to 9.
- Number parsing: parameters parsed with `float()` are kept as the text they were read from. `int()` accepts an optional sign followed by plain decimal digits here, not surrounding spaces or underscores.
- `np.array_split`: only the names of the output chunks are modelled, not how rows are shared among them.
- Unused code: the unused `is_english` variable of the Bluesky cleaning script and `Tweet.__repr__` have no effect on results. They are not modelled.
- ChunkForGithub.Limit: the source computes the size limit as a float, `max_mb / 10**-6 - 5e6`. The model uses the exact integer `max_mb * 1000000 - 5000000`, so float rounding of very large limits is not captured.
- PowerLawAlpha: the docstring of `generate_min_rts_dict` (`code/data_analysis/estimate_power_law_alpha.py:63-64`) says key 10 covers lengths 10 to 1,000. The code uses 10 to 100, and the model follows the code.
- ExtractEdgelists: `extract_params` of `midterm/code/data_analysis/007_extract_edgelists.py` is the same function as the one in `003_calculate_node_centralities.py`, so it is modelled once, as `NodeCentralities.ParamsOf`.

## Findings

| source | as written | input that shows it | evidently intended | confidence | as-written member | corrected member |
|---|---|---|---|---|---|---|
| midterm/code/data_extraction/002_extract_cascade_data.py:84-130 | a retweet's record takes its `tweet_id` from the variable last bound by an original post (line 85), not from the retweet itself; before any original post the name is unbound | a stream whose only line is `{"retweeted_status":{"id_str":"1"},"id_str":"2"}` with sampled cascades {"1"}: the record raises NameError; after an original post, the retweet is recorded under that post's id | record the retweet under its own `id_str` | not executed | ExtractCascadeData.StaleTweetIdCounterexample | ExtractCascadeData.IntendedRetweetRecord |

`ExtractCascadeData.CascadeDataOf` and the method `ExtractCascadeData.ExtractCascadeData` follow the code as written. The invariants proved about them hold for both variants: which lines are kept, and that every record belongs to a sampled cascade.
