# Location registry and chat history, modelled in Dafny

This project models two parts of the AutismCanadaAI backend.

**The location registry.** The abstract `LocationDatabase` contract stores two kinds of record:

- regions, which form a tree (country, province, city and so on);
- services (clinics, support groups, resources), each attached to one region.

The contract has no method bodies. Its behaviour is given only by its doc-comments. The model is an in-memory registry that does what those doc-comments say: class `Locations.LocationDatabase`.

- It keeps the region records and the service records in two sequences, in insertion order.
- Each insert gives the new record a fresh id. Ids start at 1, increase, and are never reused.
- The queries are functions over that state. The supporting pure definitions live in module `RegionTree`:
  - the subtree of a region;
  - the descendant closure that computes it;
  - the selection of services;
  - the level-by-level walk of a region path.
- Splitting a comma-separated path into names is in module `RegionPath`.

The subtree relation is the reference definition. A region `x` is in the subtree of `r` when following parent links from `x` some number of times arrives at `r`. `r` itself counts (zero links). How the closure is computed:

- It adds children until nothing new appears.
- Each round adds at least one stored region id, so there are at most as many rounds as regions.
- So it terminates even when the parent links form a cycle.

It is proved to be exactly that subtree.

**Chat history.** `ChatHistoryInterface` stores one document per username in a MongoDB collection. The model, class `ChatHistory.ChatHistoryInterface`:

- models the collection as a map from username to the sequence of (prompt, answer) exchanges;
- models insert as an upsert that appends to the end;
- models clear as deleting the map entry;
- models retrieve as a loop that flattens the exchanges into alternating `user`/`assistant` messages.

Modelling choices:

- `insert_region` and `insert_service` return `None` in the source. In the model they return the id the store assigned, so that callers and proofs can name the new row.
- A root region has parent `None`. The source types `parent_id` as `int`.
- Latitude and longitude are `real` values. They are carried along and never computed with.
- The contract in `backend/api/locationdatabase/__init__.py` has no foreign-key check on insert and no cascade or reject rule for `remove_region`. It says only that `insert_region` "adds" a region, that `insert_service` "inserts" a service for a specified region, and that remove "deletes". The model follows it:
  - inserts always succeed;
  - removing a region removes only that row, and its children and services stay.
- `find_services_in` starts from the given id itself, as the contract describes. So services attached directly to that id are returned even if no region with that id is stored.
- Path resolution when siblings share a name: at each level, the walk takes the first matching region in store order. Ids ascend in store order, so this is the one with the smallest id.

## Model

| member | source | states |
|---|---|---|
| `RegionPath.Split` | backend/api/locationdatabase/__init__.py:85-86 | a path splits into one more piece than it has commas, and no piece contains a comma |
| `RegionPath.JoinSplit` | backend/api/locationdatabase/__init__.py:85 | joining the pieces of a path with commas gives back the path, so splitting loses nothing |
| `RegionPath.SplitJoin` | backend/api/locationdatabase/__init__.py:85-86 | names that contain no comma come back unchanged after a join and a split |
| `RegionTree.Grow` | backend/api/locationdatabase/__init__.py:57-60 | the traversal keeps what it started from, ends closed under "child of", and adds only stored region ids; each round adds one, so the number of rounds is bounded by the region count |
| `RegionTree.Closure` | backend/api/locationdatabase/__init__.py:57-60 | the descendant closure of a region holds the region itself and is exactly the set of regions whose ancestor chain reaches it |
| `RegionTree.SubtreeTransitive` | backend/api/locationdatabase/__init__.py:57-60 | the subtree of any region inside the subtree of `r` lies inside the subtree of `r` |
| `RegionTree.SubtreeUnfold` | backend/api/locationdatabase/__init__.py:57-60 | the subtree of `r` is `r` together with the subtrees of its immediate children, in both directions |
| `RegionTree.Select` | backend/api/locationdatabase/__init__.py:55-65 | a service is selected if and only if it is stored, is attached to a region of the closure, and matches the type filter (no filter matches every type) |
| `RegionTree.FirstChildIndex` | backend/api/locationdatabase/__init__.py:80-91 | the index returned is the first region, from the start position on, with the given parent and name, or the end when there is none |
| `RegionTree.FindChild` | backend/api/locationdatabase/__init__.py:80-91 | returns nothing exactly when no region has that parent and name; otherwise returns the first such region in store order, which has the smallest id among them when ids ascend |
| `RegionTree.Walk` | backend/api/locationdatabase/__init__.py:80-91 | a region the walk finds is stored and ends a parent-to-child chain of stored regions whose names are the given names, starting under the given parent |
| `RegionTree.WalkFindsChain` | backend/api/locationdatabase/__init__.py:80-91 | when no two siblings share a name, the walk finds the last region of every chain that carries the given names |
| `RegionTree.Without` | backend/api/locationdatabase/__init__.py:105-122 | keeps exactly the records whose id differs from the given one; an absent id changes nothing; ascending ids stay ascending |
| `RegionTree.WithoutCounts` | backend/api/locationdatabase/__init__.py:105-122 | every record whose id differs occurs in the result exactly as often as before, and no record with that id remains |
| `Locations.LocationDatabase.constructor` | backend/api/locationdatabase/__init__.py:12-20 | an initialised store holds no regions and no services |
| `Locations.LocationDatabase.FindAllRegions` | backend/api/locationdatabase/__init__.py:69-77 | all stored regions, no two with the same id |
| `Locations.LocationDatabase.FindAllServices` | backend/api/locationdatabase/__init__.py:95-103 | all stored services, no two with the same id |
| `Locations.LocationDatabase.InsertRegion` | backend/api/locationdatabase/__init__.py:22-34 | the regions become the old regions followed by one record with a fresh id and exactly the given name, type, parent id, latitude and longitude; services unchanged |
| `Locations.LocationDatabase.InsertService` | backend/api/locationdatabase/__init__.py:36-52 | the services become the old services followed by one record with a fresh id and exactly the given fields; address, phone and website are None when not supplied; regions unchanged |
| `Locations.LocationDatabase.FindServicesIn` | backend/api/locationdatabase/__init__.py:54-67 | a service is returned if and only if it is stored, is attached to the region or to a region whose ancestor chain reaches it, and has the requested type when one is given; in a valid store the result lists services in strictly ascending id order, which fixes it to the matching services in store order, none twice |
| `Locations.LocationDatabase.FindRegionByPath` | backend/api/locationdatabase/__init__.py:79-93 | a returned record is stored and ends a root-to-node chain named by the comma-separated path; when siblings have distinct names, the end of any such chain is the one returned |
| `Locations.LocationDatabase.RemoveRegion` | backend/api/locationdatabase/__init__.py:105-113 | exactly the region with that id is gone; every other region and every service is unchanged |
| `Locations.LocationDatabase.RemoveService` | backend/api/locationdatabase/__init__.py:115-123 | exactly the service with that id is gone; every region and every other service is unchanged |
| `Locations.LocationDatabase.ClearDatabase` | backend/api/locationdatabase/__init__.py:125-132 | afterwards both the region list and the service list are empty |
| `Locations.ServicesInDescendantIncluded` | backend/api/locationdatabase/__init__.py:55-65 | every service found in a subregion is also found in the region above it |
| `Locations.ServicesInUnfold` | backend/api/locationdatabase/__init__.py:55-65 | the services found in a region are the matching ones attached to it directly, together with those found in its immediate children |
| `Locations.PathOfChainResolves` | backend/api/locationdatabase/__init__.py:80-91 | the comma-joined names of a root-to-node chain (names without commas, distinct sibling names) resolve to the node at its end |
| `Locations.ThreeLevels` | backend/api/locationdatabase/__init__.py:85-86 | a root, its child and its grandchild, with three distinct parent links, form a named chain, and no two of them share both parent and name |
| `Locations.ScenarioPath` | backend/api/locationdatabase/__init__.py:85 | the path "Canada,Ontario,Toronto" splits into the three names in order |
| `Locations.ScenarioRegions` | backend/api/locationdatabase/__init__.py:22-34 | inserting Canada, Ontario under it and Toronto under that into an empty store yields exactly those three regions with the parent links given, and no services |
| `Locations.ScenarioStore` | backend/api/locationdatabase/__init__.py:36-52 | adding a clinic in Toronto to those regions yields exactly the three regions and that one service |
| `Locations.ScenarioPathLookup` | backend/api/locationdatabase/__init__.py:79-93 | in the returned store, `FindRegionByPath("Canada,Ontario,Toronto")` is its third region: the city Toronto, whose parent is the stored Ontario region under the root Canada |
| `Locations.ScenarioServices` | backend/api/locationdatabase/__init__.py:54-67 | in the returned store, `FindServicesIn` of the country with no filter is exactly its one stored service: the clinic in Toronto, two levels below |
| `Locations.ScenarioNoSupportGroup` | backend/api/locationdatabase/__init__.py:54-67 | in the returned store no service is a support group, and `FindServicesIn` of the province filtered by "support_group" is empty |
| `ChatHistory.Formatted` | backend/db_funcs/chat_history.py:70-75 | n exchanges become 2n messages: message 2i is the user's prompt i and message 2i+1 is the assistant's answer i |
| `ChatHistory.FormattedConcat` | backend/db_funcs/chat_history.py:36-40 | formatting a history extended by new exchanges gives the old formatted history followed by the formatted new exchanges |
| `ChatHistory.ChatHistoryInterface.constructor` | backend/db_funcs/chat_history.py:21-22 | the interface wraps the collection of the database it is given, with whatever documents that collection already holds |
| `ChatHistory.ChatHistoryInterface.InsertChatHistory` | backend/db_funcs/chat_history.py:33-40 | the user's history becomes the old history (empty when absent: upsert) followed by the new exchanges in order; every other user is unchanged |
| `ChatHistory.ChatHistoryInterface.RetrieveChatHistory` | backend/db_funcs/chat_history.py:60-80 | for a stored user the result is the formatted history (the loop builds it two messages per exchange); for a user without a document it is the empty list |
| `ChatHistory.ChatHistoryInterface.ClearChatHistory` | backend/db_funcs/chat_history.py:89-95 | the user's document is gone, nothing else changes, and clearing an absent user changes nothing |
| `ChatHistory.ExampleInserts` | backend/db_funcs/chat_history.py:102-105 | on a database holding any documents, the example's two inserts append the three exchanges, in order, to whatever "boss" had, and leave every other user unchanged; on an empty database, "boss" ends up as the only document, holding exactly those three exchanges |
| `ChatHistory.ExampleFormatted` | backend/db_funcs/chat_history.py:106 | the example's three exchanges format as the six alternating user and assistant messages |
| `ChatHistory.ExampleSession` | backend/db_funcs/chat_history.py:106-109 | retrieval gives the formatted history of "boss" (the six messages in order when those are its three exchanges); after a clear it is empty; the collection loses exactly "boss", so a second clear of the now absent user changes nothing and the store the example built ends empty |

## Left out

- `initialize_database` (backend/api/locationdatabase/__init__.py:12-20): tables, indexes and any storage failure are physical setup. The constructor only gives an empty, usable store.
- Snapshot or caching of the region tree: no code for it appears in the modelled files.
- Locations.LocationDatabase.FindRegionByPath: finds the end of a matching chain only when no two siblings share both parent and name. Otherwise it takes the first (smallest-id) sibling at each level and can fail where another sibling would have led on. The contract gives no rule for that case.
- Locations.LocationDatabase.FindServicesIn: the store order of the result is promised only in a valid store (there it follows from the ascending ids). Outside `Valid()`, only which services are returned is stated. The contract promises only a list of the services in the region and its subregions.
- Latitude and longitude: no floating-point behaviour is modelled. They are carried as opaque values.
- The concrete SQL backends behind the abstract contract are not part of this model: foreign keys, ordering of result rows, id assignment.
- MongoDB specifics in chat_history.py: `create_index`, `matched_count`/`deleted_count` and the `print` logging. They do not change the stored map.
- The shape of a stored entry: each is modelled as a typed (prompt, answer) pair. An entry with a different number of strings, which would make the unpacking loop raise, is not modelled.
- backend/api/endpoints.py and backend/api/app.py: language-model calls, clustering, prompt files, PDF storage, Flask routing and client set-up are I/O and foreign calls.
- Concurrency between web requests. Every operation is modelled as one atomic step.
