# HOOMD-blue: communication, search structures and bookkeeping

A Dafny model of the parts of HOOMD-blue in which many pieces of state have to agree: the domain
decomposed communicator, the AABB tree, the cell list with its stencils, and the bonded group,
decomposition, allocator and periodic box code they rest on. `dafny verify dfyconfig.toml` checks
the whole project.

## What is modelled

**Communicator.** All ranks are one state, a sequence with one element per rank. A direction is one
synchronous step in which every rank sends to its neighbour on the W x H x D torus and receives from
the opposite one. `Grid` is the torus, `RankVectors` the linear algebra of sums over ranks.

- `GhostExchange`, `GhostPlan`, `GhostUpdate`, `ReverseForces` follow ghosts along their plans: where
  copies arrive, which plans positions produce, that replaying the saved lists gives what a new
  exchange would give, and that forces on ghosts come home once. `GhostRank` holds the loops of one
  rank over its arrays, proved against the functions of those modules.
- `GhostPaths` and `GhostLayer` say what ghosts are for: a particle that is closer than its ghost width
  to a point of a domain has a copy on the rank of that domain, at the image that is that close.
- `ParticleMigration` follows particles through the six migration steps, first on fractional
  coordinates, then with the real boxes, tilts and wraps.
- `GroupMigration` is the two-phase migration of bonded groups, for every order in which messages may
  arrive; `GroupExecutions` shows that every step has an execution; `GroupRank` holds the loops of one
  rank.

**Search structures.** `AabbTree` builds, queries and updates the flat tree in place. `CellGeometry`,
`CellAdjacency`, `CellBinning` and `CellStencil` are the cell list.

**Bookkeeping.** `GridSearch` and `TwoLevel` choose the domain grid and fill the rank tables;
`BondedGroups` and `GroupTable` store groups by tag and by particle; `Allocator` caches device
memory; `BoxDim` is the triclinic periodic box, `Sequences` a few facts about sequences.

Scalars are reals. Counters are natural numbers; the sentinels 0xffffffff are kept, with the bounds
that keep indices away from them. Code that changes arrays and fields is a class with methods, each
proved against a function or predicate on the values; std::vector and GPU arrays that grow are
sequence fields, fixed buffers are arrays. Clocks, MPI requests and the device are parameters.

## Where the code does less than it says

Each of these comes with a concrete input on which the code fails, and with a result that says exactly
when the code does what it promises.

- *Migration of particles at most one domain away* (Communicator.cc:1601-1742). A particle that has
  moved along x or y is wrapped on arrival along the other axes too, against a box centred on the new
  domain. If it lies beyond the global boundary along a later axis with three or more domains, by more
  than half the width of the domain on the other side, it is wrapped before its turn and ends on the
  wrong rank (`EarlyWrapHappens` on fractions, `EarlyWrapStrays` for particles and ranks). With outer domains thinner than 0.0002 this can happen to particles
  that have not left their domain along that axis.
- *Shifted box* (Communicator.cc:3325-3422). When y is not divided but z is, the x window is displaced by
  the tilt product that `XWindowError` names. A particle can be sent back on arrival
  (`TiltedWindowMisses`, `TiltedWindowStrays`). `MigrationReachesHome` and `ParticleReachesHome` give the
  exact condition for both failures together.
- *Ghosts with two domains along an axis* (Communicator.cc:3325-3422). The shifted box takes in half of the
  neighbour across the global boundary and 0.0001 more. With two domains that neighbour lies on both
  sides, and a layer within 0.0001 of half its width, which the box size check allows, reaches what has
  been taken in, so that a copy is put at the wrong image. `RoomIsExact` is the exact condition, with
  the particles for which it fails; `GhostsAreSeen` is what holds if there is room.
- *Box size check* (Communicator.cc:1814 and 1840). `exchangeGhosts` checks the box against the recorded
  widths and collects the requests afterwards. The migration before it has just collected and checked
  them, so a request has to change in between (`StaleCheckPasses`). `OppositesIffWide` is exact for the
  layer in use, `PlanGhosts` and `Communicate` say what the check protects.
- *Smallest surface* (DomainDecomposition.cc:327-408). A default search in three dimensions starts from
  the area of (1, n, 1) but from the grid (1, 1, n). Where nothing is strictly better than the former it
  returns the latter (`ElongatedBoxMissed`). `FindDecomposition` states when the result is minimal.
- *Stencil guard along x* (CellListStencil.cc:145) asks whether z is periodic. Cells are left out or listed
  twice (`LeftOut`, `TwiceListed`). `StencilIsExact` says when.
- *Tolerance below the box* (CellList.cc:489-512). A particle up to 0.00001 below a periodic box is put
  into the first cell although it belongs to the last, and can miss neighbours (`BelowHappens`).
  `CloseAreNeighbors` is exact for pairs, `BelowExact` for a particle and all its partners.
- *Refilling the cell list* (CellList.cc:179-194) needs two passes if the ghost width is current, but can
  need a third one if the ghost layer changed without notice, even if the dimensions stay the same
  (`ThirdPassHappens`). `Fill` states the exact number.
- *Group migration* (Communicator.cc:115-794) keeps agreement only if every rank whose copy lives on is
  told of every move. With members on distant ranks it does not (`FiveDomainsDisagree`).
  `AgreementIffKnown` is the exact condition for first and for later passes, `AgreementIffInformed` says it
  in terms of who is told, and close owners satisfy it.

Where comments disagree with the code the model follows the code: `AABBTree::query` appends particle
indices, not node indices, and `buildNode` and `updateSkip` do recurse.

## Model

| member | source | states |
|---|---|---|
| Grid.Indexer.Triple | hoomd/Index1D.h:151-160 | the quotients and remainders give a cell of the grid whose row-major index is the argument |
| Grid.TripleOfIndex | hoomd/Index1D.h:119-160 | the triple of the index of a cell is that cell |
| Grid.IndexOrder | hoomd/Index1D.h:119-122 | cells are numbered along x first, then y, then z |
| Grid.IndexInjective | hoomd/Index1D.h:119-122 | two cells with the same index are the same |
| Grid.NeighborOpposite | hoomd/DomainDecomposition.cc:450-480 | going in a direction and back in the opposite one returns to the rank, for every grid and every rank table |
| Grid.NeighborsCommute | hoomd/DomainDecomposition.cc:450-480 | hops along different axes commute |
| Grid.NeighborIsOther | hoomd/Communicator.h:436-451 | along a communicating direction the neighbour is another rank, on rings of two as well |
| BoxDim.FractionOfCoordinates | hoomd/BoxDim.h:260-288 | coordinates made from fractions have these fractions, for every triclinic box |
| BoxDim.CoordinatesOfFraction | hoomd/BoxDim.h:260-288 | fractions of coordinates lead back to the coordinates |
| BoxDim.WrapKeepsUnwrapped | hoomd/BoxDim.h:391-458 | for every box, tilt, periodicity and flag setting, wrapping leaves the position shifted by its image unchanged |
| BoxDim.WrapKeepsPoint | hoomd/BoxDim.h:391-458 | the wrapped position is a lattice translate of the given one |
| BoxDim.FlagsForceImages | hoomd/BoxDim.h:391-458 | a flag of one or minus one changes the image of a periodic axis by just that, and open axes keep theirs |
| BoxDim.WrapIgnoresImage | hoomd/BoxDim.h:391-458 | the wrapped position does not depend on the image |
| BoxDim.WrapReturnsToBox | hoomd/BoxDim.h:391-458 | in a centred periodic box a point ends with fractions in [0,1) if and only if they started in [-1,2) |
| BoxDim.ShiftedWrapPerAxis | hoomd/Communicator.cc:3325-3422 | wrapping with the shifted box moves the window of each axis separately, with the exact error of the x window |
| RankVectors.StepAdjoint | hoomd/Communicator.cc:1941-2379 | copying towards a direction and adding back towards its opposite are adjoint, on every torus |
| RankVectors.AllStepsAdjoint | hoomd/Communicator.cc:2397-2648 | six steps along a plan are adjoint to the six steps of the inverted plan although these are taken in the same order of axes |
| GhostExchange.CopiesAreItineraries | hoomd/Communicator.cc:1941-2379 | after the six directions a rank holds as many copies of a particle as there are subsets of its active directions that lead there |
| GhostExchange.GhostsDeliveredExactlyOnce | hoomd/Communicator.cc:1941-2379 | without opposite active directions a particle exists exactly once on every rank an itinerary reaches, nowhere else, and on its owner only as itself |
| GhostExchange.SingleCopiesIffNoOpposites | hoomd/Communicator.cc:1941-2379 | no rank gets a second copy if and only if the active plan has no opposite directions |
| GhostExchange.ReceivedInOrder | hoomd/Communicator.cc:2034-2378 | behind its own slots a rank has exactly the slots that its neighbour plans to send, in the order of the neighbour's array |
| GhostPlan.WidestCoversRequests | hoomd/Communicator.cc:1765-1780 | the width of a type covers every request for it |
| GhostPlan.WidestIsRequested | hoomd/Communicator.cc:1765-1780 | the width of a type is zero or one of the requests for it |
| GhostPlan.OppositesIffWide | hoomd/Communicator.cc:1864-1896 | positions never mark opposite directions if and only if the layer covers at most half of every divided axis |
| GhostPlan.CheckIsExact | hoomd/Communicator.h:641-670 | the box size check passes if and only if some wider layer would still mark no opposite directions for any position |
| GhostPlan.CheckedPlansHaveNoOpposites | hoomd/Communicator.h:641-670 | if the box size check passed on a width no smaller than the one in use, no position marks opposite communicating directions |
| GhostPlan.MarkedGhostsDeliveredOnce | hoomd/Communicator.cc:1864-1896 | a particle marked by its position in the local box of its owner, after a passed check, arrives exactly once wherever its plan leads, whatever boxes the receivers wrap with |
| GhostPlan.GhostLayers.Reduce | hoomd/Communicator.cc:1765-1782 | the largest request per type, and the largest of all types |
| GhostPlan.GhostLayers.UpdateGhostWidth | hoomd/Communicator.cc:1745-1808 | new widths per type; the recorded maxima bound them, also when there are no requests and the old maximum stays |
| GhostPlan.GhostLayers.CheckBoxSize | hoomd/Communicator.h:641-670 | passes if and only if a layer wider than the recorded maxima is still safe; then every type and position is protected |
| GhostPlan.GhostLayers.MarkPlans | hoomd/Communicator.cc:1864-1896 | the plan of every local particle |
| GhostPlan.GhostLayers.PlanGhosts | hoomd/Communicator.cc:1811-1896 | check, collect, mark in the order of the exchange; the check is on the maxima of before, and plans have no opposite directions if the maxima have not grown |
| GhostPlan.GhostLayers.Communicate | hoomd/Communicator.cc:1564-1592 | over migration and exchange, plans have no opposite directions if the requests are the same both times |
| GhostPlan.CollectedAgain | hoomd/Communicator.cc:1745-1808 | collecting the same requests again does not raise the maximum |
| GhostPlan.StaleCheckPasses | hoomd/Communicator.cc:1811-1896 | collecting 0.25, checking, then planning with a request of 0.75: the check passes and the particle is marked both ways |
| GhostPaths.LoadsFollowPaths | hoomd/Communicator.cc:1941-2379 | after any number of directions every copy on every rank came along an itinerary of its plan that leads there, delivered at every stop |
| GhostPaths.CopiesKeepFields | hoomd/Communicator.cc:2034-2378 | every slot of a particle, on whatever rank, has its velocity and orientation if requested and what the memory held if not, a lattice translate of its position, and with images its unwrapped position |
| GhostPaths.UpdateKeepsFields | hoomd/Communicator.cc:2652-2876 | after an update every slot, local or ghost, has the current velocity and orientation of the particle with its tag, and a lattice translate of its current position, as far as requested |
| GhostLayer.OneStepAway | hoomd/Communicator.cc:1864-1896 | along an axis whose domains are wider than twice the layer, whoever is within the layer of a point of a domain, turns around the box included, is in that domain or next to it and within the layer of the face between |
| GhostLayer.WindowTurns | hoomd/Communicator.cc:3325-3422 | the window of the receiver turns such a particle by exactly the turns that bring it close, once |
| GhostLayer.RoomIsExact | hoomd/Communicator.cc:3325-3422 | with two domains along an axis, windows turn every particle within the layer of a point of the other domain to the close image if and only if layer and tolerance together cover at most half of each domain |
| GhostLayer.PathReachesGoals | hoomd/Communicator.cc:1941-2379 | hops along three axes lead to the goals of the three axes, in spite of the wraps along all axes at every stop |
| GhostLayer.PositionPlanMarks | hoomd/Communicator.cc:1864-1896 | the plan made from fractions of the local box holds exactly the directions whose faces are within the ghost width, measured in the global box |
| GhostLayer.CopyAtImage | hoomd/Communicator.cc:1941-2379 | for all plans that mark close faces: whoever is within the layer of a point of a domain is on its rank exactly once, at the close image |
| GhostLayer.GhostsAreSeen | hoomd/Communicator.cc:1811-2379 | if some image of a particle is closer than its ghost width to a point of a domain, then after the exchange the rank of that domain has the particle exactly once, at that image along every divided axis |
| GhostUpdate.ReverseTagsInverse | hoomd/Communicator.cc:2363-2378 | with unique tags every slot is found through the reverse table, and the table finds nothing else |
| GhostUpdate.ExchangeUnique | hoomd/Communicator.cc:1941-2379 | if every particle is well planned, no rank holds a tag twice after the exchange |
| GhostUpdate.StartsAreSizes | hoomd/Communicator.cc:2759-2763 | the running ghost counts are the array lengths before each direction |
| GhostUpdate.UpdateRefinesExchange | hoomd/Communicator.cc:2652-2876 | replaying the saved tag lists reads nothing out of range and gives every ghost, forwarded ones included, the requested fields that a new exchange of the current data would give |
| GhostUpdate.UpdateOfWellPlanned | hoomd/Communicator.cc:2652-2876 | the same after every exchange of well planned particles, whose tags are then unique on all ranks |
| GhostUpdate.UpdateSparesRest | hoomd/Communicator.cc:2759-2873 | an update changes no local particle, no image and no field that is not requested |
| ReverseForces.ReverseIsAdjoint | hoomd/Communicator.cc:2397-2648 | what comes back to a rank is the force on all copies weighted by the itineraries that brought them there |
| ReverseForces.ReverseForcesArriveOnce | hoomd/Communicator.cc:2397-2648 | without opposite directions an owner receives the force of each ghost of its particle exactly once, for every grid, although inverted plans also send to ranks that ignore them |
| ReverseForces.AddForcesMeaning | hoomd/Communicator.cc:3200-3218 | adding received forces changes local particles by the sum received under their tag and nothing else |
| ReverseForces.BoundIndicesExact | hoomd/Communicator.cc:2506-2519 | the saved positions are those of all entries that travel on, in increasing order |
| ReverseForces.ListsServeAnyForces | hoomd/Communicator.cc:2484-2648 | the lists saved by an exchange serve every later set of forces on the same ghosts |
| ReverseForces.ForceUpdateFollows | hoomd/Communicator.cc:2994-3219 | replaying the saved reverse lists is always in range and every rank gains what the entry-wise exchange returns |
| ReverseForces.NetForceIsTotal | hoomd/Communicator.cc:2994-3219 | after the update a local particle has its own force plus that of every ghost copy once |
| GhostRank.GhostArrays.PackGhosts | hoomd/Communicator.cc:2034-2059 | the message and the saved tag list of a direction |
| GhostRank.GhostArrays.AppendGhost | hoomd/Communicator.cc:2363-2378 | one ghost appended and entered in the reverse table |
| GhostRank.GhostArrays.ReceiveGhosts | hoomd/Communicator.cc:2095-2378 | the received slots, their positions wrapped, appended in order, and their number saved for later updates |
| GhostRank.GhostArrays.PackUpdate | hoomd/Communicator.cc:2684-2748 | the refresh message looked up through the saved tags |
| GhostRank.GhostArrays.ReceiveUpdate | hoomd/Communicator.cc:2759-2873 | the refreshed range of ghosts, all other slots unchanged |
| GhostRank.GhostArrays.InvertPlans | hoomd/Communicator.cc:2428-2449 | every ghost plan with its directions turned around |
| GhostRank.GhostArrays.PackOwnGhosts | hoomd/Communicator.cc:2484-2495 | the ghosts that travel back in a direction |
| GhostRank.GhostArrays.PackForwarded | hoomd/Communicator.cc:2506-2519 | what was received and travels on, with its positions in the buffer |
| GhostRank.GhostArrays.PackReverse | hoomd/Communicator.cc:2484-2519 | the whole reverse message and both saved lists |
| GhostRank.GhostArrays.ReceiveReverse | hoomd/Communicator.cc:2585-2645 | received tags and plans appended |
| GhostRank.GhostArrays.PackForces | hoomd/Communicator.cc:3016-3034 | the forces of a direction from both saved lists |
| GhostRank.GhostArrays.ReceiveForces | hoomd/Communicator.cc:3152-3218 | the buffer grows by the message and local particles gain the forces sent under their tags |
| GroupMigration.FlagDestinationIsNeighbor | hoomd/Communicator.cc:145-193 | the destination computed from the flags is the neighbour the particle is sent to |
| GroupMigration.UpdatedEntry | hoomd/Communicator.cc:383-402 | an entry after all updates, whatever their order |
| GroupMigration.UpdateComesFromOwner | hoomd/Communicator.cc:115-230 | only the owner of a member reports it, with its true destination |
| GroupMigration.ReportIsSent | hoomd/Communicator.cc:206-227 | a neighbour that stores the group is addressed by the owner of a member to report |
| GroupMigration.NothingToReport | hoomd/Communicator.cc:195-227 | nothing is sent about a group whose members are all on the rank and stay |
| GroupMigration.ReportsGoToOwners | hoomd/Communicator.cc:195-227 | a later pass reports only moves of local members, and only to ranks that own a member elsewhere |
| GroupMigration.PhaseOneEntry | hoomd/Communicator.cc:115-402 | the exact table entry of every rank after the first phase |
| GroupMigration.AddedGroup | hoomd/Communicator.cc:703-794 | stored groups win over received ones and each received group is stored once |
| GroupMigration.KeptIffStaying | hoomd/Communicator.cc:434-488 | a group stays in the table if and only if the rank keeps a member |
| GroupMigration.HoldersExact | hoomd/Communicator.cc:434-794 | after the second phase every rank stores exactly the groups it owns a member of, once |
| GroupMigration.TableRightIffInformed | hoomd/Communicator.cc:115-402 | between the phases a table is right if and only if its rank is told of every move |
| GroupMigration.TableRightIffKnown | hoomd/Communicator.cc:115-402 | in a first pass from arbitrary tables too, a table is right if and only if each entry was reported, or was right already |
| GroupMigration.KnowsIffInformed | hoomd/Communicator.cc:115-230 | in a later pass a rank knows a group if and only if it is told of every move |
| GroupMigration.CopySource | hoomd/Communicator.cc:703-794 | which rank a holder has its copy from |
| GroupMigration.AgreementIffInformed | hoomd/Communicator.cc:115-794 | a step keeps all ranks in agreement if and only if every rank whose copy lives on is told of every move |
| GroupMigration.AgreementIffKnown | hoomd/Communicator.cc:115-794 | a step ends in agreement if and only if every rank whose copy lives on knows all members, for a first pass from arbitrary tables and for later ones |
| GroupMigration.CloseOwnersAgree | hoomd/Communicator.cc:115-794 | with owners pairwise equal or neighbouring a step re-establishes agreement, a first pass even from arbitrary tables |
| GroupMigration.RunKeepsAgreement | hoomd/Communicator.cc:115-794 | over every run with close owners each state is in agreement |
| GroupExecutions.TrueWorldAgrees | hoomd/Communicator.cc:115-794 | for all owners there is a world in which the ranks agree |
| GroupExecutions.StepExists | hoomd/Communicator.cc:115-794 | every step can be executed from every world |
| GroupExecutions.DistantOwnersDisagree | hoomd/Communicator.cc:206-402 | whenever two members are on ranks that are not neighbours and one moves on, an agreed world is no longer agreed afterwards |
| GroupExecutions.FiveDomainsDisagree | hoomd/Communicator.cc:206-402 | this happens wherever five domains lie along x |
| GroupRank.MarkGroup | hoomd/Communicator.cc:115-207 | the new table and the mask of one group |
| GroupRank.Destinations | hoomd/Communicator.cc:206-227 | the ranks an update is addressed to |
| GroupRank.GroupArrays.MarkRanks | hoomd/Communicator.cc:115-230 | all tables marked, and exactly the updates to send |
| GroupRank.GroupArrays.ApplyRankUpdates | hoomd/Communicator.cc:383-402 | the reported entries taken over |
| GroupRank.LeavingTo | hoomd/Communicator.cc:440-488 | where the members of a group leave to and whether one stays |
| GroupRank.GroupArrays.SelectGroups | hoomd/Communicator.cc:432-488 | exactly the groups to send, and the look-up table without groups that have no staying member |
| GroupRank.GroupArrays.Compact | hoomd/Communicator.cc:491-556 | the same groups by tag, stored densely, with tags and reverse table mutually inverse again |
| GroupRank.FirstOfEach | hoomd/Communicator.cc:703-712 | of several received copies the first one counts |
| GroupRank.GroupArrays.AddReceived | hoomd/Communicator.cc:703-794 | the received groups merged into those stored |
| GroupRank.NeighborsByOffset | hoomd/Communicator.cc:1418-1520 | the neighbours are the ranks at the offsets that count |
| GroupRank.UniqueNeighbors | hoomd/Communicator.cc:1418-1520 | every rank of the 26-neighbourhood once |
| ParticleMigration.BeyondFaceIsGlobal | hoomd/DomainDecomposition.cc:573-597 | leaving the local box across a face is passing the cumulative fraction of that face, for every tilt |
| ParticleMigration.TravelMatchesSite | hoomd/Communicator.cc:1601-1742 | one migration step of a particle is the step on fractional coordinates, with the x window displaced as the tilt and the height of the receiver say |
| ParticleMigration.MigrationReachesHome | hoomd/Communicator.cc:1601-1742 | a particle at most one domain away per axis ends on its domain if and only if the x window ends beyond it on its way up and no step along an earlier axis wraps it early, for all domain boundaries and tilts |
| ParticleMigration.ParticleReachesHome | hoomd/Communicator.cc:1601-1742 | the same for particles, boxes and ranks, for every triclinic box |
| ParticleMigration.PairIndex | hoomd/Communicator.cc:1601-1742 | the two steps along an axis lead home if and only if the displaced window hits, for every displacement |
| ParticleMigration.SideWrapIndex | hoomd/Communicator.cc:1729-1741 | after a wrap by a step along another axis the steps still lead home if and only if the particle was in its window, or leaves one of two domains; wrapping again changes nothing |
| ParticleMigration.ParticleFollowsSite | hoomd/Communicator.cc:1601-1742 | every particle, however far away, ends on the rank that its fractions lead to |
| ParticleMigration.HomeCoordinates | hoomd/Communicator.cc:1601-1742 | where a particle that comes home ends, coordinate by coordinate, without any assumption on widths or tilts |
| ParticleMigration.InsideIffLands | hoomd/Communicator.cc:1601-1742 | the two steps along an axis end inside the domain if and only if the displaced window ends on the right side |
| ParticleMigration.InsideAlongX | hoomd/Communicator.cc:1601-1742 | a particle that comes home is inside along x if and only if the window of its last stop leaves it there; for one that moves along x only, if and only if its window lands it there |
| ParticleMigration.ExactWindows | hoomd/Communicator.cc:3325-3422 | windows are exact if y is divided, or z is not, or the product of the tilts xy and yz is zero |
| ParticleMigration.HomeIsInside | hoomd/Communicator.cc:1601-1742 | a particle that comes home is inside its domain along y and z, and along x under the condition of ExactWindows |
| ParticleMigration.ReceivedKeepsUnwrapped | hoomd/Communicator.cc:1729-1741 | wrapping on arrival keeps the unwrapped position |
| ParticleMigration.MigrationConserves | hoomd/Communicator.cc:1601-1742 | every tag with its unwrapped position occurs as often over all ranks after any number of directions as before |
| ParticleMigration.MigrationFollows | hoomd/Communicator.cc:1601-1742 | every particle is found where following it alone leads |
| ParticleMigration.PartsAreSelections | hoomd/Communicator.cc:1619-1641 | exactly the particles beyond the face leave, and both those and the others keep their order |
| ParticleMigration.EarlyWrapHappens | hoomd/Communicator.cc:1601-1742 | a particle one domain away that ends on the wrong rank |
| ParticleMigration.TiltedWindowMisses | hoomd/Communicator.cc:3325-3422 | a particle that a displaced x window sends back to where it came from |
| ParticleMigration.ParticleAt | hoomd/BoxDim.h:260-288 | for every domain and all fractions there is a particle at these fractions on its rank |
| ParticleMigration.StraysLikeSite | hoomd/Communicator.cc:1601-1742 | what happens to fractions on a domain happens to every particle with these fractions on its rank |
| ParticleMigration.EarlyWrapStrays | hoomd/Communicator.cc:1601-1742 | every particle at given fractions on the rank of one domain ends on the rank of another domain than its own |
| ParticleMigration.TiltedWindowStrays | hoomd/Communicator.cc:3325-3422 | every particle at given fractions is sent back to the rank it came from |
| ParticleMigration.ParticleArrays.RemoveParticles | hoomd/Communicator.cc:1619-1641 | those beyond a face are handed out in order, the others stay in order |
| ParticleMigration.ParticleArrays.AddParticles | hoomd/Communicator.cc:1729-1741 | what arrives is wrapped and appended |
| Aabb.OverlapIsMeeting | hoomd/AABB.h:282-299 | boxes with a common point overlap, and boxes with ordered corners overlap only if they have one |
| Aabb.ContainsIsEnclosing | hoomd/AABB.h:306-324 | a box contains another with ordered corners if and only if it encloses all its points |
| Aabb.PositionIsCentre | hoomd/AABB.h:201-219 | the position is as far from the lower as from the upper corner |
| Aabb.MergeIsHull | hoomd/AABB.h:331-353 | merging the hulls of two families gives the least box around both |
| Aabb.HullUnique | hoomd/AABB.h:331-353 | there is one least box, up to its tag |
| AabbTree.HullOf | hoomd/AABBTree.h:417-422 | the least box around a range of boxes |
| AabbTree.LongestAxis | hoomd/AABBTree.h:462-512 | no axis of the box is longer than the one chosen |
| AabbTree.AABBTree.Partition | hoomd/AABBTree.h:450-531 | the range is permuted, boxes and indices in lock-step, with everything before the plane on the left |
| AabbTree.AABBTree.Split | hoomd/AABBTree.h:449-538 | the range is parted along the longest axis into boxes whose centres are closer to the lower face and the others, but both sides are non-empty for every input |
| AabbTree.AABBTree.BuildLeaf | hoomd/AABBTree.h:425-444 | a leaf over the range, with tags and reverse mapping |
| AabbTree.AABBTree.BuildNode | hoomd/AABBTree.h:411-554 | terminates; appends a tree in preorder over the permuted range, boxes being hulls of what is below |
| AabbTree.AABBTree.UpdateSkip | hoomd/AABBTree.h:563-580 | every skip count is the number of nodes below, nothing else changes |
| AabbTree.AABBTree.BuildTree | hoomd/AABBTree.h:384-394 | a tree over all boxes: preorder, merged boxes, leaves of 1 to 16, tags stored, mapping exact, each particle once, boxes tight |
| AabbTree.MappingIsInverse | hoomd/AABBTree.h:433-441 | the reverse mapping names a leaf if and only if that leaf holds the particle |
| AabbTree.SkipLosesNothing | hoomd/AABBTree.h:301-313 | skipping below a node that misses the query skips no hit |
| AabbTree.AABBTree.Query | hoomd/AABBTree.h:287-317 | the stackless search appends what a scan of all leaves would, and so every particle whose latest box has a point in common with the query |
| AabbTree.QueryIsExact | hoomd/AABBTree.h:287-317 | after a build and any updates a query finds no index twice and every particle whose latest box has a point in common with the query; of boxes with ordered corners it finds exactly those whose leaf has one |
| AabbTree.AABBTree.Update | hoomd/AABBTree.h:325-349 | the tree is valid for the new box; boxes only grow and other leaves stay |
| AabbTree.AABBTree.MergeParents | hoomd/AABBTree.h:336-348 | the walk to the root ends and leaves every internal box the merge of its children |
| AabbTree.AncestorsStep | hoomd/AABBTree.h:354-376 | the nodes above a node, told by skip counts, are its parent and those above the parent |
| AabbTree.AABBTree.Height | hoomd/AABBTree.h:354-376 | the number of nodes whose subtree contains the leaf |
| GridSearch.FindDecomposition | hoomd/DomainDecomposition.cc:327-408 | succeeds if and only if a factorisation fits the request and returns one; minimal with a request and in two dimensions; in a default search minimal if and only if something beats the start value, or n = 1, or Ly <= Lz; a longer axis then has no fewer domains than a shorter one |
| GridSearch.AreaIsBetweenDomains | hoomd/DomainDecomposition.cc:385-395 | twice the searched area is the surface of all domains less the surface of the box, in two dimensions their circumference |
| GridSearch.BestFollowsBox | hoomd/DomainDecomposition.cc:327-408 | in the best grid without a request a longer axis has no fewer domains than a shorter one, for every pair of axes |
| GridSearch.ElongatedBoxMissed | hoomd/DomainDecomposition.cc:327-408 | a box for which the search does not return the best grid |
| GridSearch.BlockExists | hoomd/DomainDecomposition.cc:147-153 | if m divides nx ny nz there is a block of m ranks whose sides divide nx, ny and nz |
| GridSearch.Subdivide | hoomd/DomainDecomposition.cc:411-445 | the last dividing block in search order, which exists whenever m divides the number of domains |
| TwoLevel.RanksPerNode | hoomd/DomainDecomposition.cc:139-148 | with m ranks on every node the number of ranks is the number of nodes times m |
| TwoLevel.IsUniform | hoomd/DomainDecomposition.cc:696-713 | whether all nodes hold the same number of ranks |
| TwoLevel.GlobalInjective | hoomd/DomainDecomposition.cc:241-254 | no cell is addressed from two places |
| TwoLevel.AllPlacedIsValid | hoomd/DomainDecomposition.cc:208-259 | once all places are filled the two tables are mutually inverse |
| TwoLevel.BlocksOfNodes | hoomd/DomainDecomposition.cc:203-260 | two domains are on the same node if and only if they are in the same block of the grid |
| TwoLevel.RankTables.FillBlocks | hoomd/DomainDecomposition.cc:203-260 | the nested loops fill every cell once; tables are mutually inverse and each block holds one node |
| TwoLevel.RankTables.FillSequential | hoomd/DomainDecomposition.cc:262-270 | the sequential tables |
| TwoLevel.InitializeDomainGrid | hoomd/DomainDecomposition.cc:110-270 | fails if and only if nothing fits; otherwise mutually inverse tables over a fitting grid; where promised, domains are on the same node if and only if they are in the same block |
| CellAdjacency.WrapIndex | hoomd/CellList.cc:410-420 | the truncated remainder, corrected, is the residue |
| CellAdjacency.NeighborIffNear | hoomd/CellList.cc:387-424 | a cell is listed if and only if it is within the radius around the ring along every axis |
| CellAdjacency.NeighborsAreSymmetric | hoomd/CellList.cc:387-424 | listing is mutual |
| CellAdjacency.NeighborCount | hoomd/CellList.cc:288-308 | every cell has exactly the allocated number of neighbours |
| CellAdjacency.CollectNeighbors | hoomd/CellList.cc:406-424 | the collected list holds exactly the neighbours |
| CellAdjacency.SortUnique | hoomd/CellList.cc:426-430 | strictly increasing with the same elements |
| CellAdjacency.AdjacencyTable.InitializeCellAdj | hoomd/CellList.cc:379-435 | every row is filled to its exact length with the neighbours of its cell in increasing order |
| CellGeometry.CellsWideEnough | hoomd/CellList.cc:112-130 | cells are at least as wide as the nominal width, or there is one cell; their number is a multiple |
| CellGeometry.CellsAreFinest | hoomd/CellList.cc:112-130 | the number of cells is the largest multiple whose cells are wide enough, or one |
| CellGeometry.SetupIsFinest | hoomd/CellList.cc:82-131 | that holds along every axis for the distance of the faces and the ghost layer on both open sides |
| CellGeometry.LayerIsBinned | hoomd/CellList.cc:489-512 | whatever is in the box or within the ghost layer around its open sides falls into a cell |
| CellGeometry.BinnedExact | hoomd/CellList.cc:489-512 | along an axis, what falls into a cell: up to 0.00001 beyond both ends of a periodic axis, then in the first cell; never from the upper end of an open axis on |
| CellGeometry.CloseAreNeighbors | hoomd/CellList.cc:489-519 | particles closer than r nominal widths, through periodic boundaries and for every triclinic box and ghost layer, are in cells that list each other, except exactly if along a periodic axis one is below the lower end and the other more than r cells from both ends |
| CellGeometry.PlanesClose | hoomd/BoxDim.h:536-552 | a distance in space bounds the distance along the normal of every face, by the nearest plane distances |
| CellGeometry.LayerKeepsDistance | hoomd/BoxDim.h:260-268 | fractions of the box and its ghost layer, times its extent, keep distances |
| CellGeometry.AxisExact | hoomd/CellList.cc:489-519 | along one axis, close particles are in near cells unless one is misplaced, for every pair that falls into cells |
| CellGeometry.BelowExact | hoomd/CellList.cc:489-512 | along a periodic axis, a particle in the lower tolerance zone is near all partners that fall into cells if and only if the radius is zero, the whole ring is listed, or the cells make up for its displacement |
| CellGeometry.BelowHappens | hoomd/CellList.cc:489-512 | a particle there that misses a partner |
| CellBinning.OccupantsExact | hoomd/CellList.cc:480-585 | the list of a cell holds exactly its particles |
| CellBinning.OccupantsIncrease | hoomd/CellList.cc:480-585 | in increasing order |
| CellBinning.CellList.InitializeAll | hoomd/CellList.cc:235-274 | dimensions, the ghost width they are computed for, and memory with at least one slot per cell; a known slot number is kept |
| CellBinning.CellList.Prepare | hoomd/CellList.cc:138-176 | announced changes bring grid and ghost width up to date; without one both stay |
| CellBinning.CellList.ComputeCellList | hoomd/CellList.cc:437-585 | sizes, slots and the three error marks after a pass with the stored ghost width |
| CellBinning.CellList.CheckConditions | hoomd/CellList.cc:587-644 | slots raised after an overflow, and the error to report |
| CellBinning.CellList.Fill | hoomd/CellList.cc:179-194 | terminates; on success after exactly the number of passes that the loads with the stored and with the current ghost width imply, at most two if the stored width is current; nothing overflows and only ghosts outside are missing; errors name a particle that is invalid or outside |
| CellBinning.CellList.Compute | hoomd/CellList.cc:133-195 | when the list is refilled; at most two passes after an announced change or with a current ghost width, otherwise the exact number |
| CellBinning.ThirdPassHappens | hoomd/CellList.cc:179-194 | four positions, for which a ghost width that grew from 1.0 to 1.4 leads to a third pass with unchanged dimensions |
| CellBinning.SlotsAreExact | hoomd/CellList.cc:437-585 | every particle in the grid has exactly one slot, in its cell |
| CellBinning.NeighborsAreFound | hoomd/CellList.cc:379-585 | in a filled list every particle within the search radius of another is in a slot of a cell listed by the cell of the other, except exactly for misplaced pairs |
| CellStencil.ReachIsExact | hoomd/CellListStencil.cc:119-124 | along an axis a cell is closer than the radius if and only if it is within the stencil size |
| CellStencil.DistanceIsLeast | hoomd/CellListStencil.cc:152-169 | no two points of the two cells are closer than the computed distance |
| CellStencil.DistanceIsAttained | hoomd/CellListStencil.cc:152-169 | two points of the cells are at that distance |
| CellStencil.WithinIsNear | hoomd/CellListStencil.cc:152-171 | the test of the stencil holds if and only if some points of the cells are closer than the radius |
| CellStencil.StencilIsExact | hoomd/CellListStencil.cc:126-180 | every cell with a point closer than the radius to a point of the cell at the origin is covered by exactly one listed offset if and only if the guard along x is right or not needed; no other offset is listed |
| CellStencil.TwiceListed | hoomd/CellListStencil.cc:145-146 | without the guard a long stencil lists a cell twice |
| CellStencil.LeftOut | hoomd/CellListStencil.cc:145-146 | with a wrong guard a cell is left out |
| CellStencil.BuildStencil | hoomd/CellListStencil.cc:126-184 | the origin first, then every listed offset once in the order of the loops, each with its squared distance, never more than the row holds |
| CellStencil.StencilTable.Reallocate | hoomd/CellListStencil.cc:85-95 | rows long enough for the largest stencil |
| CellStencil.StencilTable.Compute | hoomd/CellListStencil.cc:51-185 | the stencils of all types with their squared distances, each within its row |
| Allocator.CachedAllocator.GetTemporaryBuffer | hoomd/CachedAllocator.h:166-232 | never a block that is handed out; the smallest cached block if one fits closely, otherwise a new one, with the largest cached blocks returned only as the limit demands |
| Allocator.CachedAllocator.FitIsRelative | hoomd/CachedAllocator.h:179-182 | a cached block fits if and only if it exceeds the request by at most the relative tolerance |
| Allocator.CachedAllocator.Shrink | hoomd/CachedAllocator.h:210-225 | the limit is met or the cache is empty, and no block was returned needlessly |
| Allocator.CachedAllocator.Deallocate | hoomd/CachedAllocator.h:90-103 | the block moves to the cache with its size |
| Allocator.CachedAllocator.FreeAll | hoomd/CachedAllocator.h:119-136 | no block is left on the device |
| Allocator.TakeFree | hoomd/CachedAllocator.h:187-193 | bytes and blocks stay accounted for when a cached block is handed out |
| Allocator.TrimLargest | hoomd/CachedAllocator.h:210-225 | returning the largest block while over the limit is no more than needed |
| BondedGroups.ContentsByTag | hoomd/BondedGroupData.cc:474-518 | look-up through the reverse table gives the group with the tag |
| BondedGroups.BondedGroupData.AddBondedGroup | hoomd/BondedGroupData.cc:321-444 | fails if and only if the group is not acceptable; otherwise it is stored under the last recycled tag or the next new one |
| BondedGroups.BondedGroupData.RemoveBondedGroup | hoomd/BondedGroupData.cc:589-673 | fails if and only if there is no such group; otherwise exactly it is gone and its tag recycled |
| BondedGroups.BondedGroupData.GetNthTag | hoomd/BondedGroupData.cc:449-465 | an active tag with exactly n active tags below it |
| BondedGroups.BondedGroupData.MaybeRebuildTagCache | hoomd/BondedGroupData.cc:731-753 | the cache is current afterwards, which by the class invariant means the active tags in increasing order |
| BondedGroups.BondedGroupData.GetGroupByTag | hoomd/BondedGroupData.cc:470-536 | the group with the tag, if it and its members exist |
| BondedGroups.BondedGroupData.TakeSnapshot | hoomd/BondedGroupData.cc:1092-1129 | the groups in tag order, and where each tag went |
| BondedGroups.BondedGroupData.InitializeFromSnapshot | hoomd/BondedGroupData.cc:294-317 | succeeds if and only if all groups are acceptable; the snapshot of the result is the one given |
| BondedGroups.OrderIsComplete | hoomd/BondedGroupData.cc:1092-1129 | the active tags in order are as many as the groups and each has one |
| GroupTable.EntriesExact | hoomd/BondedGroupData.cc:835-876 | every visited member is listed at its particle, once |
| GroupTable.EntriesOrdered | hoomd/BondedGroupData.cc:835-876 | the entries of a particle are in the order of the groups |
| GroupTable.RoomLeft | hoomd/BondedGroupData.cc:809-844 | the counted height leaves a slot for every member still to come |
| GroupTable.CountGroups | hoomd/BondedGroupData.cc:772-807 | the number of groups per particle; fails if and only if a group is incomplete |
| GroupTable.ParticleTable.Rebuild | hoomd/BondedGroupData.cc:756-880 | every particle has its groups in its first slots; an entry holds the indices of the other members in their order, then the type or the group index, and the position of the particle; the height is the largest count |
| GroupTable.SlotsMatchMembers | hoomd/BondedGroupData.cc:835-876 | slots and members correspond one to one |

## Left out

- Byte packing, requests and MPI data types: each exchange is one matched step.
- GPU code paths (CommunicatorGPU, CellListGPU, kernels) and the SSE and AVX variants of the boxes.
- `exchangeGhostGroups`, and the marking of ghosts by bonded groups: plans are inputs of the exchange.
- The combination of forward net forces with reverse forces, and torques and virials, which take the same route as forces.
- Floating point rounding and NaN, except that a NaN position is an error of the cell list.
- 32-bit wrap-around of products and counters; bounds keep indices below the sentinels.
- Triclinic geometry of the stencil distance. The nearest plane distances are inputs with the squares the source gives them.
- Boxes without extent along z, except in the cell list and the choice of the domain grid.
- HomeIsInside: assumes that the outermost domains are at least twice as wide as the wrapping tolerance; MigrationReachesHome, HomeCoordinates and InsideAlongX do not.
- GhostsAreSeen: assumes outermost domains of that width, the condition of ExactWindows, and the room of RoomIsExact along axes with two domains; plans are those made from positions, on ranks whose particles are inside their domains.
- AgreementIffInformed: the option local_multiple is always true, the only value its caller passes on the CPU.
- InitializeDomainGrid: two levels in two dimensions are allowed; the source has an assertion against them that the search does not need.
- BuildTree: needs at least one box, because the source reads the first one, and fewer nodes than the sentinel.
- Fill: slots hold particle indices; positions, types, charges and orientations are stored in the same slots and are not modelled.
- GetTemporaryBuffer: which of several cached blocks of equal size is taken is open, and the conversion of the tolerance to 32 bits is not modelled.
- Rebuild: needs at least one particle, because the source takes the maximum over all counts.
- BondedGroupData on several ranks and its ghost groups, other than their migration.
- Load balancing, autotuning, dump writers, execution configuration and Python bindings.
