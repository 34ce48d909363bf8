# offlinefs: a verified model of its namespace, path cache and stores

offlinefs keeps a Unix-like file system in ordered key-value tables and puts a mutable path cache in
front of it. This project models the parts whose correctness is hard to see, and proves what they are
for. `dafny verify dfyconfig.toml` checks everything.

**The two interlocking parts.** `PathCaches.PathCacheHash` is the cache of `pathcache.cxx` with its map,
queue, counter, parent links, insert-then-clean-up and eviction; `FsDbs.FsDb` holds the node and directory
tables with stored link counts; `FileSystems.FS` has the operations of `fs.cxx` on both. They are imperative
and changed one write at a time, as in the source. Their specifications are values: a namespace `NS` (attributes by id,
entries by directory and name, "." and ".." among them) and a plain cache (path to node and attributes, and the order of use).

* `CacheModel` says what getnode and invalidate do to a plain cache; the methods of `PathCacheHash` are proved equal to it, in contents, order of use,
  answer and error. `CacheState.Consistent` is the structure they keep, at every operation boundary and after every exception.
* `Ops` says what each operation does to the tables and with which error it ends, first once its directories are open, then with uncached walks opening
  them; `Effects` what every path means afterwards.
* `Verdicts` and `Performed` tell the requests once more, by paths, permission bits and attributes alone: with what each is answered and what it leaves. `LookupErrors` does
  so for the errors of a lookup, `Permissions` for what a request needs whatever the cache led it to.
* `Tree.Inv` is the shape of the tree: every directory has "." to itself, one named entry from the directory its ".." names, a way up to
  the root, no entry dangles, every node is referred to. `FsDbs.Sound` says that every stored link count is the number of entries that lead to the node.
* `CachedSteps.Step` is a request as it is served, its paths looked up through the cache, for any contents of the cache. `CachedSteps.StepIff` and
  `CachedRuns.TreeKeptIff` say exactly when a request and a run keep the tree.
* `Coherence.Coherent` is what a cache in step with the tables is: each cached path either resolves to the cached node (with the right owner, group and
  mode, if a directory), or some prefix of it does not resolve and is not cached. `Agreement.StepAgrees` and `CachedRuns.RunAgrees` say that requests and
  runs then end as with uncached walks, `CachedRuns.InStepIff` exactly which runs keep the cache in step.
* `Lookups` says what can be noticed: for root, whom no attribute stops, every lookup agrees with the uncached walk exactly if every cached node is right or cut off.
* `Service.Serve` puts all of it together: the file system serves every run of requests as these say. `Runs` has the same requests with uncached walks, as reference.

**The stores and parsers.** `Registers`, `Store` and `Tables` are the register layer over one sorted table of byte strings, and `DirTables` the entries of
directories in it; `Tokens` the path tokenizer and splitter; `Formats` and `Matching` the format-string compiler and matcher; `Recency` and `SContextCaches`
the cache of security contexts; `Slots` the table of open files under every interleaving of threads.

**Where the code differs from its documentation, or from what one would expect**, the model follows the code, and a lemma says what follows:

* `pathcache.hxx:41` announces that `invalidate` removes all cached data related to a file; it removes one entry and keeps what is cached
  below it. The cache therefore stays in step when a name appears exactly if no direct child of that name is cached (`Invalidation.AppearKeepsCoherent`; rename has
  its own exact condition, `Invalidation.RenameCoherent`). `Staleness` has the failing run and serves it: make /a and /a/x, look /a/x up, rename /a to /b, make /a,
  look /a up, and /a/x is served although it does not exist (`Staleness.ServeStale`).
* Such a stale entry can also damage the tables. A rename checks its directories, not its paths: with the stale /a/x, moving /b to /a/x/c puts a directory below itself
  (`Staleness.BreakTree`), and moving /b/x/f to /a/x/f, one directory under two paths, removes the file and then fails with EIO, which the destructor
  commits (`Staleness.LoseFile`). What is true of every contents of the cache: link counts stay right; mknod, mkdir, symlink, unlink, rmdir, chmod and chown keep the
  tree, and change nothing when they fail; link keeps the tree exactly if the node it opened is no directory; rename keeps it exactly if it does not move a directory
  to a free name below itself, and a failing rename changes nothing exactly if it did not remove the node it was to move (`CachedSteps.Safe`, `CachedSteps.Clean`).
* getnode reads the node id from its entry after it has released the lock (`pathcache.cxx:211-213`). Another thread's invalidate or eviction in between takes the
  entry's data away: the read is right exactly if the path stays cached all along (`SharedCache.SharedGetNode`, `SharedCache.SafeReadIff`).
* A path with a missing directory and an unsearchable one above it gets ENOENT from the path cache, which looks all of it up before it tests any permission
  (`LookupErrors.UnresolvedParentAnswers`), and EACCES from `PathCache_null` (`LookupErrors.WalkAnswers`).
* rename looks for the moved directory above the new parent only if the new name is taken. For a fresh name the tree shape is kept exactly if
  the new path is not below the old one (`Staleness.MoveToFreshNameKeepsTreeIff`), which the kernel side of FUSE sees to.
* rename between two hard links of one file drops the old name (`Effects.LinkedNamesRename`); rename() in the System Interfaces volume of
  POSIX.1-2008 would leave both.
* `Node::unlink` compares a 32-bit difference as a signed number: it removes a node that has entries left beyond 2^31 links
  (`FsDbs.UnlinkRemovesIff`).
* `createregister` wraps around at the last id (`Tables.NewIdIsFreshIff`), and `getregisters` misses an all-ones id that is the only one live
  (`Tables.Table.GetRegisters`).
* The `Path` constructor splits a string rightly exactly if a slash stands before its last token (`Tokens.SplitLaw`).
* The cache of security contexts notices an edit exactly if one of the files is stamped later than the cache's last clearing, or cannot be examined
  (`Recency.ChangeIsNoticedIff`, `Recency.RunIsFreshIff`). An edit stamped with the second of that clearing, or with an earlier time, is missed for as long as no
  later stamp comes (`Recency.EarlyStampIsMissed`).

**Assumptions.** Of a request by itself (`Runs.WellFormed`): paths are absolute and normalized, without empty, "." or ".." tokens; the root is not created, linked to
or renamed to; `mkdir` and `mknod` get modes that leave a directory a directory and anything else something else. Of its paths (`Runs.Admissible`, used only for
the agreement with uncached walks): no hard link to a directory; no new path below the old one in a rename, when the new name is free. What the widths of the
stored integers need: the largest id is not in use and there are fewer than 2^31 - 3 directory entries when something is created, linked or renamed
(`FileSystems.Room`). A request is served on a tree; on a broken one rename's walk along ".." need not end.

## Model

| member | source | states |
|---|---|---|
| Modes.CheckAccessIsSearchAccess | src/libofflinefs/pathcache.cxx:177-182 | checkAccess on cached owner, group and mode lets a caller through exactly when Node::access does for X_OK, for every mode word |
| Modes.AccessIsBits | src/libofflinefs/nodes/node.cxx:77-88 | write and search permission are bits 0x80 and 0x40 for the owner, 0x10 and 0x8 for the group's members, 0x2 and 0x1 for others; user 0 needs none |
| Modes.StickyIsBit | src/offlinefs/fs.cxx:71-77 | bit 0x200 of the directory refuses everyone but user 0, its owner and the owner of the node |
| Modes.ChmodMode | src/offlinefs/fs.cxx:417 | the type bits stay, and every other bit is as asked |
| Modes.ChownMode | src/offlinefs/fs.cxx:443-453 | clearing the set-id bits leaves the type of the node as it was |
| Modes.ChownModeBits | src/offlinefs/fs.cxx:443-453 | with bit 0x8000 set, bit 0x800 goes, and with bit 0x8 set also bit 0x400; all other bits stay |
| Namespace.WalkResolves | src/libofflinefs/pathcache.cxx:31-45 | the token-by-token walk succeeds exactly if the path resolves and every directory on the way is searchable, and then gives the node the path resolves to |
| Namespace.WalkErr | src/libofflinefs/pathcache.cxx:31-45 | the walk fails when the path does not resolve or a proper prefix is not searchable |
| Tree.DirPathUnique | src/offlinefs/fs.cxx:185-399 | in the tree shape, two paths to one directory are the same path |
| Tree.DirHasPath | src/offlinefs/fs.cxx:185-399 | every live directory has a path from the root |
| Tree.EveryNodeReachable | src/offlinefs/fs.cxx:185-399 | every live node is reached by some path from the root |
| Tree.BelowIsPrefix | src/offlinefs/fs.cxx:324-329 | following ".." from the directory at p meets the directory at q exactly if q is a prefix of p |
| Ops.NextIdFresh | src/libofflinefs/database.hxx:189-240 | while the largest id is free, the next id is not live and above all live ones, and one past a live one or 0 |
| Ops.ChownMeta | src/offlinefs/fs.cxx:425-459 | no chown turns a directory into something else or back |
| Frames.SamePath | src/libofflinefs/pathcache.cxx:31-45 | a walk that never looks an edited entry up leads where it led before |
| Frames.OneEntryEdit | src/offlinefs/fs.cxx:161-292 | editing the entry of p changes the meaning of no path outside p |
| Shape.AddKeepsInv | src/offlinefs/fs.cxx:161-206 | a new file, directory or link under a free name keeps the tree shape |
| Shape.LinkKeepsInv | src/offlinefs/fs.cxx:378-399 | a further hard link to something that is no directory keeps the tree shape |
| Shape.UnlinkKeepsInv | src/offlinefs/fs.cxx:208-237 | taking a name away, and the node with its last name, keeps the tree shape |
| Shape.OnlyOwnEntries | src/offlinefs/fs.cxx:251-259 | only its one name and its own "." lead to an empty directory |
| Shape.RmdirKeepsInv | src/offlinefs/fs.cxx:239-270 | removing an empty directory keeps the tree shape |
| Shape.SetMetaKeepsInv | src/offlinefs/fs.cxx:401-423 | new attributes keep the tree shape |
| Moves.ReplacedDirGone | src/offlinefs/fs.cxx:331-349 | after the deletions nothing refers to a replaced directory, which is neither the moved one nor either parent nor the root |
| Moves.MoveKeepsInv | src/offlinefs/fs.cxx:294-376 | every move that passes the checks keeps the tree shape, a moved subtree keeping its way up to the root through its new parent |
| Effects.AddPaths | src/offlinefs/fs.cxx:161-206 | after a creation p names the new node, nothing lies below it, every other path means what it meant |
| Effects.LinkPaths | src/offlinefs/fs.cxx:378-399 | after link the new path names the node too and every other path means what it meant |
| Effects.UnlinkPaths | src/offlinefs/fs.cxx:208-237 | after unlink that path stops resolving and every other path means what it meant |
| Effects.RmdirPaths | src/offlinefs/fs.cxx:239-270 | after rmdir the path and everything below stop resolving and every other path means what it meant |
| Effects.SetMetaPaths | src/offlinefs/fs.cxx:401-423 | chmod and chown change where no path leads |
| Effects.MoveNotBelowItself | src/offlinefs/fs.cxx:324-329 | an accepted move does not put a directory below itself |
| Effects.MoveNotOntoAncestor | src/offlinefs/fs.cxx:331-335 | an accepted move does not replace an ancestor of what it moves |
| Effects.MoveMovesOneSubtree | src/offlinefs/fs.cxx:294-376 | new++s resolves to what old++s resolved to for every s, old and everything below it stops resolving, and every path under neither is unchanged |
| Effects.LinkedNamesRename | src/offlinefs/fs.cxx:307-309 | with both names linked to one file, the old name is dropped and the new one stays |
| Coherence.FirstFailUncached | src/libofflinefs/pathcache.cxx:83-135 | in a coherent cache the first prefix of a path that does not resolve is not cached |
| Coherence.AllCachedIsRight | src/libofflinefs/pathcache.cxx:58-81 | a cached path all of whose prefixes are cached is right |
| Coherence.RightWhenResolved | src/libofflinefs/pathcache.cxx:196-213 | a cached path that resolves is right |
| Coherence.ShrinkKeepsCoherent | src/libofflinefs/pathcache.cxx:203-205 | evicting any entries keeps the cache coherent |
| Coherence.ExtendKeepsCoherent | src/libofflinefs/pathcache.cxx:137-166 | an entry initialised from its cached parent keeps the cache coherent, even if the parent is stale |
| Invalidation.AppearKeepsCoherent | src/offlinefs/fs.cxx:161-206 | when a name appears the cache stays coherent exactly if no direct child of the name is cached |
| Invalidation.AddCoherent | src/offlinefs/fs.cxx:161-206 | mknod, mkdir and symlink keep the cache coherent exactly if no direct child of the new name is cached |
| Invalidation.LinkCoherent | src/offlinefs/fs.cxx:378-399 | link keeps the cache coherent exactly if no direct child of the new name is cached |
| Invalidation.UnlinkCoherent | src/offlinefs/fs.cxx:224-227 | unlink with its one invalidation keeps the cache coherent |
| Invalidation.RmdirCoherent | src/offlinefs/fs.cxx:255-260 | rmdir with its one invalidation keeps the cache coherent, whatever stays cached below |
| Invalidation.SetMetaCoherent | src/offlinefs/fs.cxx:416-418 | a change of mode, owner or group with its one invalidation keeps the cache coherent |
| Invalidation.RenameCoherent | src/offlinefs/fs.cxx:345-364 | rename with its invalidations keeps the cache coherent exactly if what is still cached below the new name fits the subtree that moves there |
| Runs.RebuiltInv | src/libofflinefs/fsdb.cxx:44-57 | the rebuilt tables have the tree shape; the one node is the root, mode 040755, with the given owner and group |
| Runs.WalkDecidesSubtree | src/offlinefs/fs.cxx:324-329 | the new parent lies at or below the moved directory exactly if the new path is strictly below the old one |
| Runs.RenameMayMove | src/offlinefs/fs.cxx:302-343 | when rename's checks pass (and a free new name is not below the old path) every condition a move needs is met |
| Runs.CreateStep | src/offlinefs/fs.cxx:161-206 | creation keeps the tree shape; failing, it changes nothing; done, the path has the node with the given attributes |
| Runs.UnlinkStep | src/offlinefs/fs.cxx:208-237 | unlink keeps the tree shape and a failing one changes nothing |
| Runs.RmdirStep | src/offlinefs/fs.cxx:239-270 | rmdir keeps the tree shape and a failing one changes nothing |
| Runs.LinkStep | src/offlinefs/fs.cxx:378-399 | link keeps the tree shape and a failing one changes nothing |
| Runs.RenameStep | src/libofflinefs/pathcache.cxx:31-45 | with walks as PathCache_null makes them: rename keeps the tree shape; failing, or to the same path, it changes nothing; otherwise it moves exactly one subtree |
| Runs.ChmodStep | src/offlinefs/fs.cxx:401-423 | chmod keeps the tree shape and a failing one changes nothing |
| Runs.ChownStep | src/offlinefs/fs.cxx:425-462 | chown keeps the tree shape and a failing one changes nothing |
| Runs.StepKeepsInv | src/libofflinefs/pathcache.cxx:31-45 | with walks as PathCache_null makes them: every request keeps the tree shape and a failing one changes nothing |
| Runs.RunKeepsInv | src/libofflinefs/pathcache.cxx:31-45 | with walks as PathCache_null makes them: the tree shape holds after every run of admissible requests |
| Verdicts.CreateIsVerdict | src/offlinefs/fs.cxx:161-206 | told by paths and bits: EACCES without write and search permission on the parent, then EEXIST if the name is there, then done |
| Verdicts.UnlinkIsVerdict | src/offlinefs/fs.cxx:208-237 | EACCES without those permissions, ENOENT for a missing name, EACCES by the sticky bit, EISDIR for a directory, in this order |
| Verdicts.RmdirIsVerdict | src/offlinefs/fs.cxx:239-270 | EACCES, ENOENT, ENOTDIR, EACCES by the sticky bit, ENOTEMPTY if some path goes on below, in this order |
| Verdicts.LinkIsVerdict | src/offlinefs/fs.cxx:378-399 | EACCES without write permission on the new parent, then the lookup of the old path, then EEXIST |
| Verdicts.RenameIsVerdict | src/offlinefs/fs.cxx:294-376 | ENOENT for a missing source, nothing for one path; EACCES without write and search permission on both parents, or by the sticky bit; and for a replaced node EACCES by the sticky bit, ENOTDIR, EINVAL for a path below the old one, ENOTEMPTY, EISDIR |
| Verdicts.ChmodIsVerdict | src/offlinefs/fs.cxx:401-423 | EPERM exactly for who is neither user 0 nor the owner |
| Verdicts.ChownIsVerdict | src/offlinefs/fs.cxx:425-462 | EPERM exactly for who is not user 0 and gives another owner, or another group without being the owner and in that group |
| Verdicts.ApplyIsVerdict | src/offlinefs/fs.cxx:97-462 | every request, walked for without a cache, is answered as paths, bits and attributes say |
| Performed.CreateIsDone | src/offlinefs/fs.cxx:161-206 | the new node is the caller's, its user and group, with the type of what is made and the other mode bits as asked; no other node changes; the path leads to it, and no other path changes |
| Performed.UnlinkIsDone | src/offlinefs/fs.cxx:208-237 | the name is gone, other paths stay, and the node goes exactly if no path leads to it any more |
| Performed.ChmodIsDone | src/offlinefs/fs.cxx:401-423 | the node has its old type bits, every other bit as asked, but no set-group-id bit for a caller outside its group who is not user 0; owner, group and every other node stay |
| Performed.ChownIsDone | src/offlinefs/fs.cxx:425-462 | the node has the given owner and group, where given, and for a caller other than user 0 who changes the group its set-id bits cleared; every other node stays |
| Performed.ApplyIsDone | src/offlinefs/fs.cxx:97-462 | every request that is done leaves what paths and attributes say; a refused one leaves all as it was |
| Performed.StepMeans | src/offlinefs/fs.cxx:97-462 | the same through a cache in step: answer and effect as paths, bits and attributes say |
| Permissions.NoneWithoutPermission | src/offlinefs/fs.cxx:161-462 | whatever the cache led to: without permission for each directory that changes the answer is EACCES, without owning the node EPERM, and no table changes |
| Permissions.StickyNeeds | src/offlinefs/fs.cxx:71-77 | whatever the cache led to: in a sticky directory nobody else's node is taken away |
| Permissions.SetRefusedIff | src/offlinefs/fs.cxx:401-462 | whatever the cache led to: chmod and chown answer EPERM exactly without the right to set the opened node |
| Steps.LinkUnderStepIff | src/offlinefs/fs.cxx:378-399 | once the directory is open, whatever cache opened it, a done link keeps the tree shape exactly if it is not to a directory |
| Steps.MoveBelowItselfBreaksTree | src/offlinefs/fs.cxx:316-364 | a directory moved to a free name at or below itself never reaches the root again |
| Steps.OntoItselfStep | src/offlinefs/fs.cxx:345-364 | a node that replaces itself is removed, or loses the one link; EIO is reported exactly if it is gone |
| Steps.RenameBetweenStepIff | src/offlinefs/fs.cxx:294-376 | between any two open directories: the tree survives exactly if no directory moves to a free name below itself, and a failing rename changes nothing exactly if it did not remove the node it was to move |
| CachedSteps.StepIff | src/libofflinefs/database.hxx:160-163 | any request, whatever the cache holds: the tree survives exactly if the request is safe; what the committing destructor writes out after a failure is unchanged exactly if it is clean; EIO is returned exactly if it is not |
| CachedSteps.StepCaches | src/libofflinefs/pathcache.cxx:83-135 | all that a request adds to the cache are prefixes of its paths |
| Agreement.StepAgrees | src/offlinefs/fs.cxx:161-462 | with the cache in step, a request ends and changes the tables as with uncached walks, and leaves the cache in step exactly if what stays cached below a name that appears fits it |
| Agreement.NothingBelowFitsNew | src/offlinefs/fs.cxx:161-399 | nothing cached below a name beforehand is enough for it to fit |
| Agreement.FitsIff | src/offlinefs/fs.cxx:161-399 | with room for what it looks up, a request leaves the cache in step exactly if it fails or what was cached below its new name before it fits: told from the tables and the cache beforehand |
| CachedSteps.StepDropsOnlyOwn | src/libofflinefs/pathcache.cxx:184-238 | with room, nothing leaves the cache but the names a request drops |
| CachedRuns.TreeKeptIff | src/offlinefs/fs.cxx:161-462 | a run through the cache, from any contents of it, keeps the tree at every moment exactly if every request is safe where it is served |
| CachedRuns.FailureChangesNothingIff | src/libofflinefs/database.hxx:160-163 | in such a run a failing request leaves the tables alone exactly if it is clean |
| CachedRuns.InStepIff | src/offlinefs/fs.cxx:161-462 | a run keeps the cache in step at every moment exactly if every name that appears fits it |
| CachedRuns.RunAgrees | src/offlinefs/fs.cxx:161-462 | such a run ends, request by request, as with uncached walks, has the same tables at every moment, and is safe |
| CachedRuns.InStepIffBeforehand | src/offlinefs/fs.cxx:161-462 | with room all along, a run keeps the cache in step at every moment exactly if before every request what is cached below its new name fits |
| CachedRuns.NothingBelowIsFitting | src/libofflinefs/pathcache.cxx:216-231 | it is enough that the cache holds nothing below a name when it appears |
| CachedRuns.QuietMeansNoneBelow | src/libofflinefs/pathcache.cxx:216-231 | which is so in a run from a cold cache where no name appears above a path mentioned before |
| Lookups.LookupsAgreeIff | src/libofflinefs/pathcache.cxx:184-214 | with live nodes, whatever the cached attributes: all lookups by root agree with the uncached walk exactly if every cached node is the right one or cut off |
| Lookups.WrongShows | src/libofflinefs/pathcache.cxx:184-214 | a wrong node that is not cut off shows at one lookup by root, of its path or of a prefix |
| Lookups.LostStepShows | src/offlinefs/fs.cxx:161-399 | a creation or link that takes the cache out of step, its nodes being live, shows at the next lookup of some path by root |
| CacheState.CEntry.Invalidate | src/libofflinefs/pathcache.hxx:85-90 | an entry loses its data |
| CacheState.DeleteKeepsConsistent | src/libofflinefs/pathcache.cxx:168-175 | deleting an entry keeps the structure, though other entries keep parent links to it |
| CacheState.InsertKeepsConsistent | src/libofflinefs/pathcache.cxx:90-107 | inserting blank entries keeps the structure, with those paths pending |
| CacheState.InitialiseKeepsConsistent | src/libofflinefs/pathcache.cxx:156-165 | filling in and queueing a pending entry keeps the structure with one path less pending |
| CacheState.GivenUpRollback | src/libofflinefs/pathcache.cxx:124-153 | after an initialisation that failed half way, the clean-up restores the structure and leaves exactly the cache as it was |
| CacheState.RelinkKeepsConsistent | src/libofflinefs/pathcache.cxx:75-79 | repairing a parent link keeps the structure |
| CacheState.PromoteKeepsConsistent | src/libofflinefs/pathcache.cxx:198-201 | moving an entry to the end of the queue keeps the structure |
| CacheState.ValidParentIsMapped | src/libofflinefs/pathcache.cxx:72-73 | a parent link that is still valid leads to the mapped entry of the parent path, so chains of links get shorter and end |
| CacheModel.LookCoherent | src/libofflinefs/pathcache.cxx:83-135 | looking a path up keeps the cache coherent, and fails only for a path that names nothing, even below a stale entry |
| CacheModel.SearchUpPasses | src/libofflinefs/pathcache.cxx:58-81 | where the climb to the root succeeds, every prefix is cached and lets the caller through |
| CacheModel.RefusedIsUnsearchable | src/libofflinefs/pathcache.cxx:177-182 | a cached directory that refuses the caller is not a searchable directory of the tree, even if the entry is stale |
| CacheModel.SearchUpCoherent | src/libofflinefs/pathcache.cxx:58-81 | the climb keeps the cache coherent, and fails only if some prefix is no searchable directory |
| CacheModel.FoundIsWalked | src/libofflinefs/pathcache.cxx:192-196 | a path found in a coherent cache whose proper prefixes pass checkAccess is what the uncached walk finds |
| CacheModel.GetNodeAgrees | src/libofflinefs/pathcache.cxx:184-214 | in a coherent cache: the same node as the uncached walk, or both fail; and the cache stays coherent |
| LookupErrors.NameAnswers | src/libofflinefs/pathcache.cxx:184-214 | in a coherent cache, for a name whose parent path resolves: EACCES if the caller is refused on the way, ENOTDIR if the parent is no directory, ENOENT if it has no such name, otherwise the node |
| LookupErrors.MissingIsENOENT | src/libofflinefs/pathcache.cxx:137-149 | all directories above let the caller through and the name is missing: ENOENT |
| LookupErrors.RefusedIsEACCES | src/libofflinefs/pathcache.cxx:177-182 | the parent is a directory and some directory above refuses the caller: EACCES |
| LookupErrors.BelowFileIsENOTDIR | src/libofflinefs/pathcache.cxx:137-149 | the parent is no directory and lets the caller through: ENOTDIR |
| LookupErrors.UnresolvedParentAnswers | src/libofflinefs/pathcache.cxx:83-135 | the parent path does not resolve and nothing is cached beyond the first missing name: ENOENT, or ENOTDIR if that is missing below what is no directory, before any permission is tested |
| LookupErrors.NewNameAnswers | src/libofflinefs/pathcache.cxx:137-166 | in any cache, for a name below a cached path that lets the caller through: node or error as the directory the cache leads to has it |
| LookupErrors.NoDirectoryIsENOTDIR | src/libofflinefs/path.hxx:46 | what is found for the parent of a last token must be a directory, or else ENOTDIR |
| LookupErrors.LookupErrorIsAnswer | src/offlinefs/fs.cxx:97-462 | a request one of whose lookups fails answers with the error of the first one that does, and no table changes |
| LookupErrors.WalkAnswers | src/libofflinefs/pathcache.cxx:31-45 | the uncached walk ends at the first obstacle: EACCES, ENOTDIR or ENOENT |
| CacheModel.GetNodeCaches | src/libofflinefs/pathcache.cxx:83-135 | all that getnode adds to the cache are prefixes of its path |
| CacheModel.GetNodeWithRoom | src/libofflinefs/pathcache.cxx:184-214 | while there is room, a found path stays cached with all its prefixes and no entry leaves |
| CacheModel.ServedFromCache | src/libofflinefs/pathcache.cxx:184-214 | a path cached with all its prefixes is answered from the cache, whatever the tables say of it, as long as the node exists |
| CacheModel.FitKeepsNewest | src/libofflinefs/pathcache.cxx:203-205 | eviction leaves exactly the most recently used entries |
| CacheModel.FitKeepsYoungest | src/libofflinefs/pathcache.cxx:198-213 | the entry just promoted is never evicted |
| CacheModel.GetNodeOrder | src/libofflinefs/pathcache.cxx:198-205 | earlier entries keep their order of use, new prefixes come after them, the path found comes last, and of these the last maxentries stay |
| CacheModel.GetNodeKeepsWf | src/libofflinefs/pathcache.cxx:184-214 | the order of use lists every cached path once, and no other |
| PathCaches.GetNodeNull | src/libofflinefs/pathcache.cxx:31-45 | the loop over the tokens computes the walk, with its errors |
| PathCaches.PathCacheHash.DelEntry | src/libofflinefs/pathcache.cxx:168-175 | queue, map and counter lose the entry and its data goes |
| PathCaches.PathCacheHash.InitEntry | src/libofflinefs/pathcache.cxx:137-166 | the entry is filled in from the node below its parent and queued, or the call fails with only its path stored, when there is no such node |
| PathCaches.PathCacheHash.Rollback | src/libofflinefs/pathcache.cxx:124-129 | exactly the pending paths of the branch leave the map |
| PathCaches.PathCacheHash.InsertBranch | src/libofflinefs/pathcache.cxx:89-107 | every missing path from toks up to the deepest cached ancestor, or the root, is inserted and no other |
| PathCaches.PathCacheHash.InitBranch | src/libofflinefs/pathcache.cxx:109-135 | all inserted entries are initialised, or those left are taken out: contents, order and error of the plain lookup |
| PathCaches.PathCacheHash.Lookup | src/libofflinefs/pathcache.cxx:83-135 | insertion, initialisation and clean-up amount to the plain lookup of CacheModel, entry, order of use and error; what was cached is kept |
| PathCaches.PathCacheHash.StepUp | src/libofflinefs/pathcache.cxx:70-79 | by a valid link or by relinking, the parent entry as the plain lookup finds it |
| PathCaches.PathCacheHash.CheckEntry | src/libofflinefs/pathcache.cxx:177-182 | refuses exactly when checkAccess does |
| PathCaches.PathCacheHash.WithPath | src/libofflinefs/pathcache.cxx:58-81 | the climb along parent links does what the plain search of every prefix does, so stale or repaired links make no difference |
| PathCaches.PathCacheHash.Promote | src/libofflinefs/pathcache.cxx:198-201 | the entry moves to the young end of the queue and nothing else changes |
| PathCaches.PathCacheHash.Evict | src/libofflinefs/pathcache.cxx:203-205 | the loop ends with at most maxentries entries, and the evicted ones are exactly the old end of the queue |
| PathCaches.PathCacheHash.MakeYoungest | src/libofflinefs/pathcache.cxx:198-205 | after promotion and eviction the entry is valid and the youngest, the oldest have left, and the cache fits |
| PathCaches.PathCacheHash.Fetch | src/libofflinefs/pathcache.cxx:184-211 | what getnode does under its lock: the entry of the path, found, made the youngest and valid; every entry of a cached path stays its entry while the path is cached and is invalid from then on |
| PathCaches.PathCacheHash.GetNode | src/libofflinefs/pathcache.cxx:184-214 | with no other call before its last read: contents, order of use and answer are those of the plain cache; so in a coherent cache the node of the uncached walk or both fail; with room, nothing leaves and all prefixes are cached; a returned node exists |
| PathCaches.PathCacheHash.Invalidate | src/libofflinefs/pathcache.cxx:216-238 | exactly that path leaves the cache, what is cached below it stays |
| SharedCache.Others | src/libofflinefs/pathcache.cxx:184-238 | after any calls of other threads an entry still has its data exactly if its path was cached after every one of them, and then its node is the one it was |
| SharedCache.SharedGetNode | src/libofflinefs/pathcache.cxx:211-213 | getnode with other calls between its unlock and its read of the node id: the answer of the undisturbed call, or the read of an entry without data, exactly if the path was found and did not stay cached all along |
| SharedCache.SafeReadIff | src/libofflinefs/pathcache.cxx:211-231 | while there is room for all, the read is safe exactly if none of the calls in between invalidates the path |
| FsDbs.UnlinkRemovesIff | src/libofflinefs/nodes/node.cxx:51-57 | the signed comparison removes at counts 0 and 1 and, wrongly, above 2^31 |
| FsDbs.AddKeepsSound | src/libofflinefs/nodes/directory.cxx:29-36 | one link counted for one entry added keeps every stored count the number of entries |
| FsDbs.LinkUnlink | src/libofflinefs/nodes/directory.cxx:29-43 | a link undone restores the tables, or removes a node nothing led to |
| FsDbs.DelKeepsSound | src/libofflinefs/nodes/directory.cxx:45-49 | one link given up for one entry deleted keeps every count right, and the node goes exactly with its last entry |
| FsDbs.RemoveOwnKeepsSound | src/libofflinefs/path.hxx:57-60 | removing a directory just made, with its own ".", keeps every other count right |
| FsDbs.MakeKeepsSound | src/libofflinefs/nodes/node.cxx:36-45 | a new node with count 0 keeps the counts right |
| FsDbs.CountDecidesEmpty | src/offlinefs/fs.cxx:251-253 | a directory has more than two entries exactly if it has a named one |
| FsDbs.DirectoryCount | src/libofflinefs/nodes/node.cxx:47-57 | the link count of a directory is 2 plus the number of its subdirectories |
| FsDbs.DropNewOfFresh | src/libofflinefs/path.hxx:51-60 | whichever of the two removals gets there first, the second changes nothing and the tables are as before |
| FsDbs.FsDb.GetChild | src/libofflinefs/nodes/directory.cxx:51-57 | the child under a name, if there is one |
| FsDbs.FsDb.Remove | src/libofflinefs/nodes/directory.cxx:59-62 | the node goes, and a directory's entries with it |
| FsDbs.FsDb.AddChild | src/libofflinefs/nodes/directory.cxx:29-43 | a free name gets the entry and the count; a taken one fails with EExists, its link taken back |
| FsDbs.FsDb.DelChild | src/libofflinefs/nodes/directory.cxx:45-49 | the entry and one count go, the node with its last entry; a missing name changes nothing |
| FsDbs.FsDb.CreateNode | src/libofflinefs/nodes/node.cxx:36-45 | a node under the next id, above all others, with count 0 |
| FsDbs.FsDb.CreateDirectory | src/libofflinefs/nodes/directory.cxx:64-69 | a directory under the next id with its "." counted |
| FsDbs.FsDb.CreateIn | src/libofflinefs/path.hxx:51-63 | the new node entered under the name, or, with the name taken, tables as they were |
| FsDbs.FsDb.Rebuild | src/libofflinefs/fsdb.cxx:44-57 | the root directory alone, id 0, its two own entries counted |
| FsDbs.NoEntryIn | src/libofflinefs/nodes/directory.cxx:59-70 | an id that is not live, reused or not, has an empty directory register |
| Writes.UnlinkWrites | src/offlinefs/fs.cxx:227 | deleting the one entry is the unlink that Ops describes |
| Writes.RmdirDropsDots | src/offlinefs/fs.cxx:255-256 | rmdir's first two deletions cannot fail and take only "." and ".." away |
| Writes.RmdirWrites | src/offlinefs/fs.cxx:255-259 | its third deletion cannot fail and removes the directory |
| Writes.ClearedReady | src/offlinefs/fs.cxx:331-349 | after the replaced node is gone the source, both parents and the old entry are still there and the new name is free |
| Writes.ReparentWrites | src/offlinefs/fs.cxx:351-357 | deleting the moved directory's ".." cannot fail and takes no node away |
| Writes.RelistedIsRename | src/offlinefs/fs.cxx:337-364 | rename's writes, one after the other, add up to the move that Ops describes |
| Writes.DelJustAdded | src/offlinefs/fs.cxx:363-364 | when old and new name are one entry, the last deletion takes away the entry just added and nothing else |
| FileSystems.FS.constructor | src/libofflinefs/fsdb.cxx:44-57 | a rebuilt file system with a cold cache is sound, tree-shaped and coherent |
| FileSystems.FS.OpenParent | src/libofflinefs/path.hxx:36-47 | the directory the cache leads to for the parent of the last token, whatever the cache holds; a returned id is a live directory |
| FileSystems.FS.GetAttr | src/offlinefs/fs.cxx:97-119 | the node the cache leads to, whatever it holds; with the cache in step, the node of the path or a failure exactly when the uncached walk fails |
| FileSystems.FS.PathCreate | src/libofflinefs/path.hxx:51-63 | permission, then the node under a fresh id; every failure leaves the tables as they were |
| FileSystems.FS.MkDir | src/offlinefs/fs.cxx:185-206 | whatever the cache holds: ends and changes tables and cache as CachedSteps says, the tables stay a sound tree, a failing one changes no table; with the cache in step, the effect is that of Ops.Create, and the cache stays in step exactly if no direct child of the new name is cached, and the new node has the caller's user and group and the mode asked for |
| FileSystems.FS.MkNod | src/offlinefs/fs.cxx:161-183 | the same for mknod, and the new node has the caller's user and group and the mode asked for |
| FileSystems.FS.SymLink | src/offlinefs/fs.cxx:272-292 | the same for symlink, and the new node has the caller's user and group and the mode asked for |
| FileSystems.FS.UnLink | src/offlinefs/fs.cxx:208-237 | whatever the cache holds: ends and changes tables and cache as CachedSteps says, the tables stay a sound tree, a failing one changes no table; with the cache in step, the effect is that of Ops.Unlink and the cache stays in step |
| FileSystems.FS.RmDir | src/offlinefs/fs.cxx:239-270 | whatever the cache holds: ends and changes tables and cache as CachedSteps says, the tables stay a sound tree, a failing one changes no table; with the cache in step, the effect is that of Ops.Rmdir and the cache stays in step |
| FileSystems.FS.RemoveEmptyDir | src/offlinefs/fs.cxx:255-259 | the three deletions all succeed and remove the directory |
| FileSystems.FS.HardLink | src/offlinefs/fs.cxx:378-399 | whatever the cache holds: link counts stay right, a failing one changes no table, and the tables stay a tree exactly if no directory is linked; with the cache in step, the effect is that of Ops.Link |
| FileSystems.FS.ChMod | src/offlinefs/fs.cxx:401-423 | whatever the cache holds: ends and changes tables and cache as CachedSteps says, the tables stay a sound tree, a failing one changes no table; with the cache in step, the effect is that of Ops.Chmod and the cache stays in step; done, one node changes, in its mode as asked below its type |
| FileSystems.FS.ChOwn | src/offlinefs/fs.cxx:425-462 | whatever the cache holds: ends and changes tables and cache as CachedSteps says, the tables stay a sound tree, a failing one changes no table; with the cache in step, the effect is that of Ops.Chown and the cache stays in step; done, one node changes, in owner, group and set-id bits as asked |
| FileSystems.FS.WriteOwner | src/offlinefs/fs.cxx:431-456 | the interleaved checks and writes fail only before anything is written, and write owner, group and mode together otherwise; refused exactly by ownership and groups |
| FileSystems.FS.MeetsOnWayUp | src/offlinefs/fs.cxx:324-329 | the loop along ".." ends at the root and meets the source exactly if the new parent lies at or below it |
| FileSystems.FS.CheckReplace | src/offlinefs/fs.cxx:316-343 | the checks on a replaced node, in their order, without a write |
| FileSystems.FS.ClearTarget | src/offlinefs/fs.cxx:337-349 | the replaced node's deletions succeed, even if it is the node to be moved |
| FileSystems.FS.Relist | src/offlinefs/fs.cxx:351-364 | the moved node is relisted: all further writes succeed; if both names are one entry, they leave nothing of it |
| FileSystems.FS.Move | src/offlinefs/fs.cxx:331-364 | once the checks have passed, the writes add up to the move; or, both names being one entry, the node is gone and EIO reported, or its name gone; the names leave the cache as the code drops them |
| FileSystems.FS.ReName | src/offlinefs/fs.cxx:294-376 | whatever the cache holds: link counts stay right, the tables stay a tree exactly if the request is safe, and a failing one changes none exactly if it is clean; with the cache in step, the effect is that of Ops.Rename and the cache stays in step exactly if what is cached below the new name fits; without permission on both opened parents, EACCES |
| Service.Handle | src/offlinefs/fs.cxx:161-462 | any well-formed request, whatever the cache holds: answer, tables and cache are those of CachedSteps.Step, with all that follows for the tree, for failures and for a cache in step; answer and effect as paths, bits and attributes say |
| Service.Serve | src/offlinefs/fs.cxx:161-462 | every run, from any contents of the cache: answers, tables and cache are those of CachedRuns; a tree at the end exactly if every request was safe; where new names fit the cache, the outcomes and tables of the run without it |
| Service.ServeRebuilt | src/libofflinefs/fsdb.cxx:44-57 | the same from a rebuilt file system on; nothing cached below a name when it appears is enough for the outcomes and tables of the run without the cache |
| Service.FittingIsServed | src/offlinefs/fs.cxx:161-462 | runs admissible on the tables alone whose new names fit the cache can be served |
| Staleness.RenameLeavesStaleChild | src/offlinefs/fs.cxx:360-364 | in the run, renaming /a to /b leaves /a/x cached and cut off |
| Staleness.StaleIsServed | src/libofflinefs/pathcache.cxx:216-231 | later in the run, /a made anew and looked up, /a/x is served though the walk does not find it, and the cache is out of step |
| Staleness.RunReaches | src/libofflinefs/pathcache.cxx:216-231 | the run itself, from rebuild and a cold cache, for every bound on the cache of 8 or more: all seven requests are answered, and this is the cache it ends with |
| Staleness.ServeStale | src/libofflinefs/pathcache.cxx:184-238 | the file system serves that run: the last lookup answers OK for a path that does not exist |
| Staleness.StaleRenameBreaksTree | src/offlinefs/fs.cxx:316-364 | there, an admissible rename of /b to /a/x/c, whose lookup the tables alone refuse, is done and breaks the tree |
| Staleness.BreakTree | src/offlinefs/fs.cxx:294-376 | the file system itself, after that run, serves that rename and has no tree any more |
| Staleness.StaleRenameLosesFile | src/offlinefs/fs.cxx:345-351 | there, renaming /b/x/f to /a/x/f removes the file and then reports EIO |
| Staleness.LoseFile | src/offlinefs/fs.cxx:294-376 | the file system itself, after that run, loses the file in a rename that fails |
| Staleness.MoveToFreshNameKeepsTreeIff | src/offlinefs/fs.cxx:316-338 | moving a directory to a free name keeps the tree shape exactly if the new path is not strictly below the old one |
| Staleness.MoveIntoItself | src/offlinefs/fs.cxx:316-338 | with a cache in step, /a moved to the free name /a/b becomes its own parent; no admissible request does this |
| Staleness.LinkedNamesAtRoot | src/offlinefs/fs.cxx:307-309 | with /a and /b linked to one file, rename of /a to /b takes /a away |
| Tokens.SlashSeparates | src/libofflinefs/token.hxx:25-40 | a slash anywhere separates tokens, so repeated and outer slashes make no difference |
| Tokens.TokensOfJoin | src/libofflinefs/token.hxx:42-53 | joined non-empty slash-free tokens come apart again |
| Tokens.KeysAreTokenLists | src/libofflinefs/pathcache.cxx:220-228 | normalizing is idempotent, and two strings share a cache key exactly if they have the same tokens |
| Tokens.Tokenize | src/libofflinefs/token.hxx:25-40 | the loop yields the non-empty stretches between slashes |
| Tokens.JoinTokens | src/libofflinefs/token.hxx:42-53 | the loop joins the tokens with single slashes |
| Tokens.SplitLaw | src/libofflinefs/path.hxx:36-44 | parent tokens and leaf make up all the tokens exactly if a slash stands before the last token |
| Tokens.PathsAreKeys | src/libofflinefs/pathcache.cxx:220-228 | two strings denote the same path exactly if they have the same cache key |
| Tokens.SplitIsParentAndLeaf | src/libofflinefs/path.hxx:36-44 | on absolute paths the split is the parent path and the last name |
| Tokens.SplitOfRoot | src/libofflinefs/path.hxx:36-44 | the root, however spelled, has empty parent and leaf |
| Registers.EncDec | src/libofflinefs/database.cxx:87-91 | encoding a decoded big-endian id gives its bytes back |
| Registers.DecEnc | src/libofflinefs/database.cxx:87-91 | decoding an encoded id gives the id back |
| Registers.KeyOrder | src/libofflinefs/register.hxx:48-57 | keys compare bytewise as their ids do, and under one id as their names do |
| Store.OrderOfKeys | src/libofflinefs/register.hxx:48-57 | the same for the keys of a table: id first, then name |
| Store.LowerBound | src/libofflinefs/register.hxx:107-110 | the cursor stands at the first key not before the one asked for |
| Store.GetIsMembership | src/libofflinefs/register.hxx:59-75 | a value is found under a key exactly if that row is in the table |
| Store.PutKeepsOrder | src/libofflinefs/register.hxx:77-87 | a put keeps the keys strictly ascending |
| Store.PutSetsAttr | src/libofflinefs/register.hxx:77-87 | a put changes that attribute of that register and no other of any register |
| Store.CutDropsAttr | src/libofflinefs/register.hxx:89-102 | a delete takes that attribute of that register away and no other of any register |
| Store.AttrNamesAreSet | src/libofflinefs/register.hxx:104-121 | a name is listed exactly if it is non-empty and set |
| Store.AttrNamesAscend | src/libofflinefs/register.hxx:104-121 | names are listed in strictly ascending order, so each once |
| Store.AfterRange | src/libofflinefs/register.hxx:110-117 | where the keys of an id end, all further keys have greater ids |
| Store.RemoveDropsRegister | src/libofflinefs/register.hxx:148-161 | without its rows a register has no attribute, and all others keep theirs |
| Store.SameRowsSameTable | src/libofflinefs/register.hxx:48-57 | two sorted tables with the same rows are the same table |
| Tables.NewIdIsGreatest | src/libofflinefs/database.hxx:209-219 | unless the all-ones id is live the new id is above every live one |
| Tables.NewIdIsFreshIff | src/libofflinefs/database.hxx:209-219 | the new id is live already exactly if both the all-ones id and 0 are |
| Tables.DummyMakesLive | src/libofflinefs/database.hxx:221-226 | the dummy row makes exactly that id live |
| Tables.NewRegisterIsEmpty | src/libofflinefs/database.hxx:221-226 | a fresh register has no attribute but the dummy one |
| Tables.NewIdIsNextId | src/libofflinefs/database.hxx:189-240 | the store gives out the id the namespace operations are stated with |
| Tables.Table.GetAttrV | src/libofflinefs/register.hxx:59-75 | the value of the attribute, or EAttrNotFound |
| Tables.Table.SetAttrV | src/libofflinefs/register.hxx:77-87 | the attribute is set, and no other of any register changes |
| Tables.Table.DelAttr | src/libofflinefs/register.hxx:89-102 | exactly that row, and so that attribute, goes; EAttrNotFound and no change without it |
| Tables.Table.GetAttrs | src/libofflinefs/register.hxx:104-121 | the cursor loop appends the register's non-empty names |
| Tables.Table.CountAttrs | src/libofflinefs/register.hxx:123-146 | the count is the number of names getattrs lists |
| Tables.Table.Remove | src/libofflinefs/register.hxx:148-161 | exactly the rows of that id go, the dummy one included, and so all its attributes and no one else's |
| Tables.Table.CreateRegister | src/libofflinefs/database.hxx:189-240 | the new id with its dummy row; an error and no change exactly if the last key is too short |
| Tables.Table.GetRegisters | src/libofflinefs/database.hxx:242-261 | every live id once in ascending order, but for an all-ones id that is the only one |
| DirTables.ReadSpell | src/libofflinefs/register.hxx:48-57 | a stored name reads back as the name it was |
| DirTables.IdReadsBack | src/libofflinefs/register.hxx:21-35 | a stored id reads back, in either byte order of the host; where that is not the order of keys, its bytes are stored reversed |
| DirTables.NamesAreEntries | src/libofflinefs/register.hxx:123-146 | a register has as many names as its directory has entries |
| DirTables.DirTable.GetEntry | src/libofflinefs/nodes/directory.cxx:51-57 | the id stored under a name is that of the entry, if there is one |
| DirTables.DirTable.SetEntry | src/libofflinefs/nodes/directory.cxx:34-36 | addchild's write to the table is the new entry, and changes no other |
| DirTables.DirTable.DropEntry | src/libofflinefs/nodes/directory.cxx:45-48 | delchild's deletion takes exactly that entry away |
| DirTables.DirTable.DropEntries | src/libofflinefs/nodes/directory.cxx:59-62 | removing the register takes exactly the entries of the directory away |
| DirTables.DirTable.CountEntries | src/libofflinefs/nodes/directory.hxx:40 | countchildren's cursor loop counts the entries of the directory |
| Formats.Find | src/tools/format.hxx:75 | the leftmost occurrence at or after a position, or none there |
| Formats.Parse | src/tools/format.hxx:89-141 | the loop computes the compilation, with its three errors |
| Formats.ReadTokenAt | src/tools/format.hxx:112-135 | the first listed token at the position with its parameter, or the error that fits |
| Formats.CompileOfPrint | src/tools/format.hxx:89-141 | printing a well-formed format and parsing it gives the format back, for prefix-free names and any delimiters |
| Formats.PrintOfCompile | src/tools/format.hxx:89-141 | printing what a successful parse gives yields the format string, for any token list |
| Formats.CompileIsOk | src/tools/format.hxx:117-129 | a successful parse makes only listed tokens with parameters free of "}" |
| Formats.ReadErrors | src/tools/format.hxx:112-135 | a token cannot be read exactly if none is listed, or the first one listed takes a parameter and no "{" or no "}" follows: the error says which |
| Formats.CompileFailsAt | src/tools/format.hxx:89-141 | a format string that does not parse fails at one of its "%", with the error of reading a token there |
| Formats.ParseIff | src/tools/format.hxx:89-141 | parse yields a format exactly if that is well formed and prints as the string |
| Matching.FindIffClean | src/tools/format.hxx:75 | the delimiter is found behind a piece exactly if it occurs there and nowhere earlier |
| Matching.CutsRender | src/tools/format.hxx:71-86 | what was cut off renders back to the text, every piece ends at the leftmost delimiter, and a missed delimiter is nowhere in the rest |
| Matching.CutOfRender | src/tools/format.hxx:71-86 | matching a rendered text gives back the values, if no delimiter occurs early |
| Matching.MatchIff | src/tools/format.hxx:71-86 | a match yields these values exactly if the text starts with their rendering and no delimiter occurs early |
| Matching.LastValueWins | src/tools/format.hxx:81-82 | a plain member ends with the last of its pieces, or what it held |
| Matching.FirstParamWins | src/tools/format.hxx:79-80 | a parameter keeps what it held, or else the first of its pieces |
| Matching.FieldMap.Match | src/tools/format.hxx:71-86 | the loop fills in exactly the pieces cut before the first missing delimiter and succeeds if none is missing |
| Recency.StepKeepsWf | src/offlinefs/scontextcache.cxx:40-74 | every request, throwing or not, keeps queue and map on the same keys, each once, at most 40 |
| Recency.RunIsLru | src/offlinefs/scontextcache.cxx:40-74 | over every run the queue is a front of the most recently used keys, newest first, and all 40 or fewer of them until something throws |
| Recency.RunIsFreshIff | src/offlinefs/scontextcache.cxx:29-74 | over every run: each request would have answered, or thrown, for every key as a fresh computation, exactly if at each request any change under a cached key shows in a stamp later than the last clearing |
| Recency.ChangeIsNoticedIff | src/offlinefs/scontextcache.cxx:29-38 | after a change under a cached key, its request is answered freshly exactly if a file has a stamp greater than the time of the last clearing, or cannot be examined |
| Recency.ClearedLast | src/offlinefs/scontextcache.cxx:29-38 | that time is the clock of the last request that found such a stamp |
| Recency.LateStampIsNoticed | src/offlinefs/scontextcache.cxx:29-38 | an edit of either file stamped later than the last clearing is answered freshly at once |
| Recency.FailedStatClears | src/offlinefs/scontextcache.cxx:31-36 | a file that cannot be examined empties the cache, as of now |
| Recency.ThrowGivesUpOldest | src/offlinefs/scontextcache.cxx:48-60 | a request that throws leaves the cache as it was, but that a full one has given up its oldest key |
| Recency.FreshIffCurrent | src/offlinefs/scontextcache.cxx:40-74 | fresh answers for every key are what it means that the cached contexts are current |
| Recency.StampedIsFresh | src/offlinefs/scontextcache.cxx:29-38 | with a clock that never goes back, stamps later than the request before the change are enough |
| Recency.EarlyStampIsMissed | src/offlinefs/scontextcache.cxx:29-38 | a change stamped with the second of the last clearing or any earlier is missed, however much later the request comes |
| SContextCaches.EraseAtIsErase | src/offlinefs/scontextcache.cxx:62 | erasing at a key's iterator takes that key out of the list |
| SContextCaches.SContextCache.constructor | src/offlinefs/scontextcache.cxx:19-23 | an empty cache, as of now or as of never |
| SContextCaches.SContextCache.Refresh | src/offlinefs/scontextcache.cxx:29-38 | all is dropped exactly if a file is newer than the last clearing or cannot be examined |
| SContextCaches.SContextCache.Get | src/offlinefs/scontextcache.cxx:40-74 | answer and state of one step of the run; the counter, list and map agree in size, at most 40, each iterator at its own key |
| SContextCaches.SContextCache.Insert | src/offlinefs/scontextcache.cxx:46-60 | a new key, the oldest given up when full, all taken back on a throw but that |
| SContextCaches.SContextCache.Promote | src/offlinefs/scontextcache.cxx:62-64 | a cached key moves to the front and its iterator follows |
| Slots.StepKeepsInv | src/offlinefs/fs.cxx:500-517 | every step of every thread keeps the invariant of slots, lock, threads and handles |
| Slots.RunIsSafe | src/offlinefs/fs.cxx:500-584 | in every interleaving a store finds its slot empty, release deletes and clears its own source once, and a handle's slot holds its undeleted source |
| Slots.HandlesApart | src/offlinefs/fs.cxx:500-584 | two open handles never share a slot |
| Slots.RunLosesNoSlot | src/offlinefs/fs.cxx:500-584 | every occupied slot belongs to a handle or to a thread about to hand it out or clear it |
| Slots.ScanSaw | src/offlinefs/fs.cxx:500-514 | a slot that a scan has passed was occupied when that call itself looked at it, before the lock or under it |
| Slots.FullOnlyIfSeen | src/offlinefs/fs.cxx:500-517 | ENFILE is returned only if that call looked at every slot and found each occupied when it did |
| Slots.LoneOpenSucceeds | src/offlinefs/fs.cxx:500-514 | open running alone with the lock free ends, after a scan of the occupied slots before it and five steps, with a handle to the first free slot |
| Slots.LoneOpenFails | src/offlinefs/fs.cxx:500-517 | open running alone on a full table ends without a handle, its source deleted |
| Slots.LoneReleaseFrees | src/offlinefs/fs.cxx:575-584 | release running alone deletes the source and frees the slot |

## Left out

- Berkeley DB itself, its locks, logs and cursors as handles: a table is a sorted sequence of rows, a namespace operation one atomic step. Of transactions only this is kept, that the destructor commits after an error too.
- `FsDbs.FsDb` keeps maps by id and name, not `Tables.Table` objects. For directory entries `DirTables` proves each register call to be the map operation; for the nodes table only `Tables.NewIdIsNextId` ties the ids, and the attributes of a node are not decoded from byte strings.
- Media, sources, chunks and `File::remove`'s clean-up of sources; the insertion scripts.
- Times, device numbers, sizes and the target of a symbolic link. A failing link therefore changes nothing here, while the code has already renewed the ctime of the linked node.
- Attributes a fresh node does not have yet (its mode, owner and group, until the operation sets them) are zero here; no other operation can see such a node.
- readdir, readlink, statfs, truncate, read, write and the extended attributes; administrators' writes to "offlinefs.*" attributes, which can break any invariant by design.
- The kind of error when a path cannot be walked: the two caches notice different obstacles first, so ENOENT, ENOTDIR and EACCES are one outcome in `Ops`, for lookups only; `CachedSteps` has the error the hash cache gives.
- Paths with "." or ".." tokens, which FUSE does not send; in the cache they would be keys of their own.
- Service.Serve: a run goes on only as long as the tables are a tree; what requests do to a broken one is not modelled.
- Hash tables, shared pointers and the mutex of the path cache: what a call does under its lock is one step. getnode's read after the unlock is a step of its own in `SharedCache`; the operations of `FileSystems` are served one after the other, so there nothing comes in between. An entry's queue iterator is its place in the queue.
- Path cache keys are token lists; `Tokens.PathsAreKeys` says that this is what the strings amount to.
- open and release are steps of a state machine on values, not methods on an array, because any number of threads interleave; what the opened sources do is left out.
- The C++ memory model: the steps of `Slots` are sequentially consistent, and failing mutex calls are not modelled. Each handle is released once, as FUSE does.
- SContextCaches.SContextCache.Get: the copy of the context that the code makes after unlocking is not modelled as a step of its own.
- Counts and sizes that the code keeps in `int` are unbounded here, but for link counts.
