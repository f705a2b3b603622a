# bgpd routing core

This project models the routing core of bgpd, with two small cores of the common library, and proves what
that code promises. Code that changes structures in place is a class or a method with loops; its contract
ties the new state to a specification function, and the theorems are about those functions.

`dfyconfig.toml` names all files: `dafny verify dfyconfig.toml` checks the project.

| file | component |
|---|---|
| `Prefix.dfy` | prefixes as bit strings; `prefix_match` and `route_common` on bytes against bits |
| `BgpTable.dfy` | the path-compressed prefix trie with parent pointers, locks and glue nodes |
| `AdjRibOut.dfy`, `AdjRibQueue.dfy`, `AdjRibSync.dfy`, `AdjRibPeer.dfy` | Adj-RIB-Out: queue structure, order of the FIFOs, messages and runs of the protocol, and the in-place code |
| `AsSegments.dfy`, `Decision.dfy`, `BestPath.dfy` | AS paths as segments, the comparison of two paths, deterministic MED and selection |
| `AsPathCodec.dfy`, `AsPathEdit.dfy`, `AsPathText.dfy`, `AsPathPrinter.dfy`, `AsPathAggregate.dfy`, `AsPathAggregator.dfy` | AS paths as octets: decoding, editing in place, text in both directions, aggregation |
| `Community.dfy`, `Decimal.dfy` | communities: sorting, matching, text, community-list deletion; numerals |
| `AttrIntern.dfy`, `AttrRuns.dfy` | hash-consing of attributes and their parts with reference counts, over all runs |
| `AttrParse.dfy` | the walk over the path attributes of an UPDATE |
| `Buffer.dfy`, `Checksum.dfy` | the chunked output queue and the Internet checksum |
| `Octets.dfy`, `Wrappers.dfy` | octets, concatenation and optional values |

## Where the code falls short

Each of these is kept in the model as the code has it, shown by an input, and delimited by an exact condition.

- `bgp_update_packet` tests for room before it writes the attributes, and `stream_put_prefix` looks for room
  for the prefix but not for its length octet. So the first prefix of a message can be dropped, or overrun the
  stream and let the loop mark all records of the attribute, while its record is marked as told:
  `AdjRibSync.TooLong`, `AdjRibSync.ToldButNotHeld`, `AdjRibSync.UpdateFaithful`.
- `aspath_aggregate` enters the segments behind a fully matching pair at the old value of `match` and loses
  their first entries: `AsPathAggregate.LosesSecondSegment`, `AsPathAggregate.LosslessIff`. The length octet of
  its new AS_SET wraps at the 256th member: `AsPathAggregator.Aggregate`.
- `attrhash_cmp` does not compare `originator_id` and `mp_nexthop_local_in`, so that attributes which differ
  in them only are shared: `AttrRuns.OriginatorConflated`, `AttrRuns.InternFaithfulIff`.
- The comparison of paths is not transitive with MEDs compared inside one AS or with cost communities:
  `Decision.MedIntransitive`, `Decision.CostIntransitive`; `Decision.TransitiveIff` says when it is. Nor is it
  with a peer of no known sort (`Decision.SortIntransitive`); that is a structure the comparison accepts and not
  a route the code learns, since the routes of `peer_self` are static, redistributed or aggregate.
- The copy in `community_del_val` is measured in pointers, and writes behind the array with pointers of eight
  octets: `Communities.ThreeValues`, `Communities.Community.DelVal`, `Communities.Community.MatchDelete`.
- The two folds of `in_cksum` do not reach the one's-complement sum of very long inputs:
  `Checksum.FoldsSuffice` says that they do for all inputs of up to 131076 bytes and for no longer length.
- AS path texts with a comma or a square bracket are not read back, and adjacent or empty AS_SEQUENCEs are
  merged: `AsPathText.TextRoundTrip`. A text that puts more than 255 ASes into one segment does not give its
  path, and `aspath_as_add` can then write outside the memory: `AsPathText.TextMeans`, `AsPathText.ManyOverrun`.
- The length octet of a segment wraps at 256, and an empty first segment makes `aspath_add_one_as` drop the
  rest of the path: `AsPathEdit.AddedMeans`, `AsPathEdit.AsPath.Prepend`.
- `buffer_flush_vty` frees what a failing `writev` did not take: `Buffers.Buffer.FlushVty`.

## Model

| member | source | states |
|---|---|---|
| Prefixes.PrefixMatch | lib/prefix.c:69-93 | the byte-wise test with one masked byte is true exactly when the bits of n begin the bits of p, which is the test the table makes at a node |
| Prefixes.RouteCommon | bgpd/bgp_table.c:137-173 | the byte-wise and then bit-wise comparison yields the longest common prefix of the address of n and of p, which is what the table gives a glue node, with every later bit cleared |
| Prefixes.PrefixOfMeans | bgpd/bgp_table.c:175-191 | bits and host bits of a prefix are its address, and check_bit reads the bit of the address |
| Prefixes.CommonLen | bgpd/bgp_table.c:137-173 | the bits below the result agree and the bit at it, if both have one, differs: there is no longer common prefix |
| Prefixes.CommonInByte | bgpd/bgp_table.c:158-169 | the inner loop stops at exactly the first bit of the byte in which the addresses differ or at the end of the shorter prefix |
| Prefixes.BeforeTotal | bgpd/bgp_table.c:410-448 | pre-order of prefixes is total: any two different prefixes are ordered one way |
| Prefixes.BeforeTransitive | bgpd/bgp_table.c:410-448 | pre-order of prefixes is transitive |
| Prefixes.BeforeOutside | bgpd/bgp_table.c:410-448 | a whole subtree lies on one side, in pre-order, of any prefix outside it |
| BgpTable.Descend | bgpd/bgp_table.c:194-206 | in every well-shaped trie a node that continues the bits of n is n itself or hangs below the link named by its next bit, so that one downward path sees every covering node |
| BgpTable.SameBits | bgpd/bgp_table.c:194-206 | no two nodes of a well-shaped trie hold the same prefix |
| BgpTable.RoutesFunctional | bgpd/bgp_table.c:281-298 | the routes of a well-shaped trie are a map from prefixes: a pair is in it exactly when the node with that prefix has those routes |
| BgpTable.LeafKeepsShape | bgpd/bgp_table.c:326-334 | hanging a new leaf below the last node of the downward walk keeps the shape of the trie |
| BgpTable.GlueKeepsShape | bgpd/bgp_table.c:336-348 | splitting an edge with a node for the common prefix keeps the shape: links, parents and the bits named by links all agree again |
| BgpTable.UnlinkKeepsShape | bgpd/bgp_table.c:356-393 | taking out a node with at most one child and joining its parent and child keeps the shape |
| BgpTable.UnlinkStep | bgpd/bgp_table.c:356-393 | one round of the delete cascade ends in a well-formed trie, or exactly the parent is left as an unheld node with too few children |
| BgpTable.CommonOfAddress | bgpd/bgp_table.c:302-353 | route_common, which reads the whole address of a node including host bits, still gives the common prefix proper in the only case bgp_node_get uses it for |
| BgpTable.NextIsChild | bgpd/bgp_table.c:410-448 | in pre-order a node with children is followed by its first child |
| BgpTable.ClimbStep | bgpd/bgp_table.c:410-448 | climbing past a parent whose 1 side is done, or empty, skips nothing |
| BgpTable.NextIsSibling | bgpd/bgp_table.c:410-448 | coming up from the 0 side, the node at the 1 link is the next one in pre-order |
| BgpTable.NextIsNone | bgpd/bgp_table.c:451-489 | when the climb reaches the top or the limit, nothing of the (sub)tree comes later |
| BgpTable.StepRestores | bgpd/bgp_table.c:410-448 | locking the next node and then unlocking the current one moves one lock and changes nothing else, the stub that the unlock might delete included |
| BgpTable.Table.Lock | bgpd/bgp_table.c:208-213 | one lock more on that node and no other change |
| BgpTable.Table.SetLink | bgpd/bgp_table.c:194-206 | the child hangs at the link of its next bit and points back; no other cell changes |
| BgpTable.Table.Match | bgpd/bgp_table.c:226-249 | the result has routes and covers p, no longer prefix with routes does, and it is null exactly when none does; only its lock count changes |
| BgpTable.Table.Lookup | bgpd/bgp_table.c:281-298 | null exactly when the flat map has nothing for p; otherwise the node with exactly the bits of p and the routes the map has; only its lock count changes |
| BgpTable.Table.Get | bgpd/bgp_table.c:301-353 | the trie stays well-formed, gains at most the node for p and one glue node, changes no routes and no other lock, and the node for p is locked once more |
| BgpTable.Table.Unlink | bgpd/bgp_table.c:356-393 | the node is gone, its only child hangs where it hung, and nothing else changes |
| BgpTable.Table.Relink | bgpd/bgp_table.c:367-388 | the pointer changes alone, from any cells in which node, child and parent are distinct: memory then matches the trie without the node |
| BgpTable.Table.Delete | bgpd/bgp_table.c:356-393 | from a trie in which only this node is a stub, the cascade restores a well-formed trie and removes at most the node and one glue ancestor |
| BgpTable.Table.Unlock | bgpd/bgp_table.c:216-223 | well-formed again; exactly one lock less, at most the node and one stub removed, routes of every prefix unchanged |
| BgpTable.Table.SetInfo | bgpd/bgp_route.c:115-138 | setting the routes of a held node changes the flat map at its prefix only |
| BgpTable.Table.FindNext | bgpd/bgp_table.c:410-489 | the pointer chase finds the pre-order successor, inside the subtree of limit when there is one, or null when there is none |
| BgpTable.Table.Next | bgpd/bgp_table.c:410-489 | returns the pre-order successor, locked, with the trie otherwise as unlocking the current node leaves it |
| BgpTable.Table.WalkOnce | bgpd/bgp_table.c:410-489 | one round visits the next node and moves the lock of the walk to it |
| BgpTable.Table.Walk | bgpd/bgp_table.c:397-489 | a whole walk visits every node (with limit: exactly its subtree) once, in pre-order, terminates, and leaves links, routes and all lock counts as they were |
| AdjRibOut.CleanIs | bgpd/bgp_advertise.c:172-206 | the cleaned record leaves its FIFO and the chain of its baa; the baa is freed exactly when the chain is empty, and then there is no next record, otherwise the next one has the same baa |
| AdjRibOut.CleanKeeps | bgpd/bgp_advertise.c:172-206 | cleaning keeps the structure of all queues and leaves the adj-out with nothing pending |
| AdjRibOut.SharedBaaStays | bgpd/bgp_advertise.c:128-145 | a baa lives on while another record uses it |
| AdjRibOut.OnlyAtMeans | bgpd/bgp_advertise.c:208-307 | a step confined to one prefix changes what is told, intended and pending for no other |
| AdjRibOut.SetMeans | bgpd/bgp_advertise.c:208-258 | for every structure in order: it stays in order, the attribute is now intended for the prefix, nothing is told yet, and no other prefix is affected |
| AdjRibOut.UnsetMeans | bgpd/bgp_advertise.c:260-307 | it stays in order, nothing is intended for the prefix, nothing is told yet, and no other prefix is affected |
| AdjRibOut.LookupIsIntended | bgpd/bgp_advertise.c:154-170 | the answer is yes exactly when an attribute is intended for the prefix |
| AdjRibOut.SendOneMeans | bgpd/bgp_packet.c:180-235 | sending one record makes told equal to intended for its prefix, takes it off its FIFO and chain, and hands over a record with the same attribute; if it hands over none, no pending record has that attribute |
| AdjRibOut.WithdrawOneMeans | bgpd/bgp_packet.c:303-352 | withdrawing one record leaves nothing told and nothing pending for its prefix and affects no other |
| AdjRibQueue.SetQueues | bgpd/bgp_advertise.c:208-258 | setting a prefix takes it from either FIFO and puts it at the end of the update FIFO; all other prefixes keep their order |
| AdjRibQueue.UnsetQueues | bgpd/bgp_advertise.c:260-307 | unsetting one takes it from either FIFO and puts it at the end of the withdraw FIFO exactly when the peer was told something; all others keep their order |
| AdjRibQueue.SendQueues | bgpd/bgp_advertise.c:172-206 | a record that is sent leaves its place, and all other prefixes keep their order on both FIFOs |
| AdjRibQueue.SetChain | bgpd/bgp_advertise.c:93-101 | a prefix that is set becomes the first of those that wait with its attribute, and the others keep their order on that chain |
| AdjRibSync.UpdateTells | bgpd/bgp_packet.c:161-246 | one UPDATE tells exactly the prefixes it marks their intended attribute, one and the same; its message names all of them when the first was carried, all but the first when that was dropped, and none after an overrun, when all records of the attribute are marked |
| AdjRibSync.UpdateFills | bgpd/bgp_packet.c:161-241 | 23 octets, attributes and prefixes of a message come to at most 4096, and to less once there is a second prefix; all marked prefixes are named exactly when the first one fits behind the attributes; in IPv4 unicast a record of the attribute stays only if the prefix of the next one on the chain would have left no octet of the 4096 |
| AdjRibSync.MoreFits | bgpd/bgp_packet.c:182-200 | the prefixes behind the first take less than the room, and the next one on the chain would have taken all of it |
| AdjRibSync.AllTells | bgpd/bgp_packet.c:182-235 | behind an overrun, where the unsigned room has wrapped, the loop marks every record of the attribute |
| AdjRibSync.WithdrawTells | bgpd/bgp_packet.c:289-370 | one withdraw message tells exactly its prefixes that they are gone, and an empty message with a non-empty queue does not occur |
| AdjRibSync.WithdrawFits | bgpd/bgp_packet.c:303-352 | the loop takes the first prefixes of the FIFO in order, which fit with the two octets that close the message, and stops only where the next would not |
| AdjRibSync.WithdrawFills | bgpd/bgp_packet.c:289-370 | a withdraw message has at most 4096 octets and names the first prefixes of the FIFO in order, one outside IPv4 unicast; in IPv4 unicast a prefix stays only if it would have made the message longer than 4096 |
| AdjRibSync.MessagesFit | bgpd/bgp_packet.c:161-370 | over any run no message is longer than 4096 octets, but for those that overran the stream |
| AdjRibSync.StepIsSound | bgpd/bgp_packet.c:161-370 | every set, unset, update-send and withdraw-send keeps the structure and changes told and intended states only as its event says |
| AdjRibSync.RunIntends | bgpd/bgp_advertise.c:208-307 | over any run the structure is in order and the intended state of every prefix is the last decision taken for it |
| AdjRibSync.RunTells | bgpd/bgp_packet.c:161-370 | over any run in which every announced prefix and its length octet fit behind the attributes, `adj->attr` is for every prefix what a peer applying the messages holds |
| AdjRibSync.Synchronised | bgpd/bgp_packet.c:161-370 | both together for the steps of the code, from an empty table |
| AdjRibSync.UpdateFaithful | bgpd/bgp_packet.c:180-235 | an UPDATE keeps told equal to held if and only if every prefix it fails to carry had been told the same before: none when length octet and prefix fit, the first when they do not, all pending ones of the attribute after an overrun |
| AdjRibSync.ToldButNotHeld | bgpd/bgp_packet.c:180-235 | for every family, prefix and attribute announced first: the prefix is marked as told, and the peer holds it if and only if its length octet and its octets fit |
| AdjRibSync.TooLong | lib/stream.c:299-317 | with 4073 octets of attributes a /24 and the default route are dropped, with 4070 a /24 overruns the stream by one octet, with 4069 it is carried |
| AdjRibSync.NothingPending | bgpd/bgp_advertise.c:154-170 | with both FIFOs empty every prefix is told as intended |
| AdjRibSync.SendShrinks | bgpd/bgp_packet.c:161-370 | a send on its own non-empty FIFO, whatever is on the other, leaves strictly fewer pending records and no other intention |
| AdjRibSync.DrainSynchronises | bgpd/bgp_packet.c:161-370 | whatever the order in which the FIFOs are served, as many sends as there are pending records empty both, and then told equals intended for every prefix |
| AdjRibSync.WrittenInOrder | bgpd/bgp_packet.c:516-563 | calls of bgp_write_packet until it has nothing to write, withdrawals before updates and an update only while the route of its first record is ready: no withdrawal is left, an update waits only behind a first record that is not ready, what waits was waiting before with nothing told about it, and all else is told as intended; with every waiting announcement ready everything is sent, with none ready none |
| AdjRibSync.WithdrawalsFirst | bgpd/bgp_packet.c:530-563 | repeated calls of bgp_write_packet send every withdrawal before the first update |
| AdjRibPeer.Peer.AdvertiseIntern | bgpd/bgp_advertise.c:115-126 | finds or makes the baa of the attribute and counts one more reference |
| AdjRibPeer.Peer.AdvertiseUnintern | bgpd/bgp_advertise.c:128-145 | one reference less; the baa leaves its table with the last one |
| AdjRibPeer.Peer.AdvertiseClean | bgpd/bgp_advertise.c:172-206 | the in-place cleaning leaves exactly the state that CleanIs describes |
| AdjRibPeer.Peer.AdjOutLookup | bgpd/bgp_advertise.c:154-170 | answers what the specified lookup answers, in every structure in order |
| AdjRibPeer.Peer.AdjOutSet | bgpd/bgp_advertise.c:208-258 | the in-place set leaves exactly the state that SetMeans describes |
| AdjRibPeer.Peer.AdjOutUnset | bgpd/bgp_advertise.c:260-307 | the in-place unset leaves exactly the state that UnsetMeans describes |
| AdjRibPeer.Peer.UpdatePacket | bgpd/bgp_packet.c:161-246 | the loop over the queue, the room test included, leaves the state and the message that UpdateTells describes |
| AdjRibPeer.Peer.WithdrawPacket | bgpd/bgp_packet.c:289-370 | the loop over the queue leaves the state and the message that WithdrawTells describes |
| AsSegments.CountMeans | bgpd/bgp_aspath.c:212-220 | the count is the number of entries of all AS_SEQUENCEs plus the number of AS_SETs |
| AsSegments.LeftAsMeans | bgpd/bgp_aspath.c:784-818 | aspath_cmp_left compares n if and only if an AS_SEQUENCE that begins with n stands behind non-empty confederation segments only |
| AsSegments.LeftConfedMeans | bgpd/bgp_aspath.c:820-851 | aspath_cmp_left_confed compares n if and only if the path begins with an AS_CONFED_SEQUENCE that begins with n and has neither an AS_SET nor an AS_SEQUENCE with entries |
| AsSegments.LeftExclusive | bgpd/bgp_aspath.c:784-851 | no path has both a leading AS and a leading confederation AS, so that a path is in at most one deterministic-MED group |
| Decision.CostAntisymmetric | bgpd/bgp_ecommunity.c:757-843 | comparing cost lists the other way round gives the opposite sign |
| Decision.CostMeans | bgpd/bgp_ecommunity.c:812-843 | where two lists of costs part, the smaller identifier wins and then the smaller value; 0x7FFFFFFF stands in for the entry that one list does not have |
| Decision.CostsMeans | bgpd/bgp_ecommunity.c:783-810 | the list has every community of type 0x4301 with the point of insertion, in its place, and no other |
| Decision.EcommunityCostCmp | bgpd/bgp_ecommunity.c:757-843 | the nested search loops terminate and give the order of the two lists of cost communities |
| Decision.BetterTotal | bgpd/bgp_route.c:156-342 | for any two paths and any configuration at least one of the two comparisons says yes |
| Decision.DefaultsMean | bgpd/bgp_route.c:143-154 | a missing MED is compared as 0, or as 4294967295 if missing is worst, a missing local preference as the default, a missing originator as the identifier of the peer, and a missing cluster list as length 0 |
| Decision.LeftsMean | bgpd/bgp_aspath.c:784-851 | the two comparisons of leftmost ASes together succeed if and only if the paths have a common neighbouring AS or member AS |
| Decision.MedComparedMeans | bgpd/bgp_route.c:232-245 | MEDs are compared if and only if the paths have a common neighbour, or both are empty, or both are inside the confederation and that is configured, or MEDs are always compared |
| Decision.BetterIs | bgpd/bgp_route.c:156-342 | on paths of known sort the fourteen steps are the lexicographic order of explicit keys down to the IGP metric, then the verdict of the cost communities, then the lexicographic order of the keys behind them |
| Decision.BetterIsLex | bgpd/bgp_route.c:156-342 | with cost communities ignored that is the lexicographic order of the whole keys, the MED being part of them for two paths whose MEDs are compared |
| Decision.BetterTransitive | bgpd/bgp_route.c:156-342 | three such paths of which every two are compared alike, all by MED or none, are compared transitively |
| Decision.TransitiveIff | bgpd/bgp_route.c:156-342 | the comparison is transitive on all paths of known sort if and only if MEDs are always compared and cost communities ignored |
| Decision.MedIntransitive | bgpd/bgp_route.c:232-254 | in every configuration that does not always compare MEDs, three paths of two neighbouring ASes for which it is not transitive |
| Decision.SortIntransitive | bgpd/bgp_route.c:256-274 | in every configuration, three paths for which it is not transitive when one peer is neither external, internal nor of the confederation |
| Decision.CostIntransitive | bgpd/bgp_ecommunity.c:757-843 | in every configuration that regards cost communities, three paths for which it is not transitive, since an ended list counts as the default cost once |
| BestPath.TogetherMeans | bgpd/bgp_route.c:779-781 | two paths are in one deterministic-MED group if and only if they have a common neighbouring AS or member AS |
| BestPath.TogetherTransitive | bgpd/bgp_route.c:779-781 | belonging to one deterministic-MED group is transitive and symmetric |
| BestPath.SettledMeans | bgpd/bgp_route.c:760-794 | after the grouping loops every eligible path has exactly one survivor in its group: no later eligible member is as good, and where comparisons in a group are an order it is as good as all of them |
| BestPath.SurvivorsSuffice | bgpd/bgp_route.c:796-818 | the choice among the survivors is the last of the best of its group, preferred to the best of every other group where all eligible paths have a neighbouring AS, and the last of the best of all where every two paths are fully compared |
| BestPath.SurvivorsAlike | bgpd/bgp_route.c:796-818 | where all eligible paths have a neighbouring AS, two survivors are never compared by MED unless MEDs are always compared |
| BestPath.RouteNode.DeterministicMed | bgpd/bgp_route.c:760-794 | the nested loops leave exactly one survivor per group and touch no flag but the two DMED bits of eligible paths |
| BestPath.RouteNode.Scan | bgpd/bgp_route.c:796-818 | finds the path selected before and a candidate than which no later one is as good, in every configuration; among candidates that are all compared by MED or all not it is at least as good as every one; the DMED bits of eligible paths are cleared |
| BestPath.RouteNode.Choose | bgpd/bgp_route.c:760-818 | grouping and scan together leave all flags as they were, so that the next run starts clean, and choose an eligible path that is the last of the best in the sense above; none only if none is eligible |
| BestPath.RouteNode.Process | bgpd/bgp_route.c:745-837 | for any list order: afterwards exactly the new choice carries SELECTED, its ATTR_CHANGED bit is clear, no other flag differs and no path carries a DMED flag |
| AsPathCodec.DecodeEncode | bgpd/bgp_aspath.c:164-242 | decoding the octets of a path with at most 255 entries in each segment gives the path back |
| AsPathCodec.EncodeDecode | bgpd/bgp_aspath.c:164-242 | whatever decodes is the encoding of the path it decodes to |
| AsPathCodec.DecodedIsEven | bgpd/bgp_aspath.c:343-345 | no byte string of odd length decodes |
| AsPathCodec.EntryAt | bgpd/bgp_aspath.c:575-577 | `asval[i]` of a segment in memory is the i-th decoded entry |
| AsPathCodec.SegmentFormat | bgpd/bgp_aspath.h:22-25 | the octets of a segment are its type by number, AS_SET 1, AS_SEQUENCE 2, AS_CONFED_SEQUENCE 3, AS_CONFED_SET 4, its number of entries and the entries in network order |
| AsPathPrinter.DecodesIff | bgpd/bgp_aspath.c:164-242 | a string decodes if and only if it is the encoding of some path, and then of that path only |
| AsPathPrinter.MakeStrCount | bgpd/bgp_aspath.c:128-252 | NULL exactly when the octets do not decode; otherwise text and count of the path, the count being one for each entry of an AS_SEQUENCE and one for each AS_SET; every character, number terminator, closing delimiter and final terminator lands inside the doubled memory |
| AsPathPrinter.PutSegment | bgpd/bgp_aspath.c:189-242 | after the doubling, delimiters, separators and numbers of one segment fit with two characters to spare, and the text grows by that segment |
| AsPathPrinter.AspathParse | bgpd/bgp_aspath.c:334-358 | accepts exactly the encodings of paths, with their text and count |
| AsPathPrinter.ReadToken | bgpd/bgp_aspath.c:995-1055 | the scanning loops give the specified token, numbers in 16-bit arithmetic |
| AsPathPrinter.AsAdd | bgpd/bgp_aspath.c:900-928 | the search for the last segment and the write behind it, or the case in which that write leaves the memory |
| AsPathPrinter.ReadAsPath | bgpd/bgp_aspath.c:1057-1112 | the token loop with needtype and as_type gives NULL, an overrun or octets exactly as specified |
| AsPathText.ReadPrint | bgpd/bgp_aspath.c:1057-1112 | for every path: reading its text fails exactly when a segment is unreadable, and otherwise performs exactly these additions |
| AsPathText.TextsAre | bgpd/bgp_aspath.c:96-242 | the text of a segment of each type with its delimiters and separators, and the blank between two segments, which an empty one does not ask for |
| AsPathText.AsAddedMeans | bgpd/bgp_aspath.c:900-928 | on encoded paths, with fewer than 255 entries in the last segment, adding an AS appends it to the decoded last segment |
| AsPathText.ApplyBuild | bgpd/bgp_aspath.c:900-951 | the additions that a path stands for, applied to the octets of another path, append its octets |
| AsPathText.TidyMeans | bgpd/bgp_aspath.c:1074-1101 | a path is tidy if and only if no AS_SEQUENCE is empty and no two are adjacent |
| AsPathText.TextMeans | bgpd/bgp_aspath.c:1057-1112 | for every text without unknown token: it stands for one path, gives the octets of that path when every segment has at most 255 entries, and gives octets that decode to it only then |
| AsPathText.ManyOverrun | bgpd/bgp_aspath.c:900-928 | 257 numbers in one sequence make aspath_as_add write outside the memory of the path |
| AsPathText.TextRoundTrip | bgpd/bgp_aspath.c:128-252 | reading the text of a path gives its octets back if and only if it has no AS_CONFED_SET, no AS_SET of two or more members and is tidy |
| AsPathText.NullWhenUnreadable | bgpd/bgp_aspath.c:1052-1054 | the result is NULL if and only if the path has an AS_CONFED_SET or an AS_SET with a comma |
| AsPathEdit.AddedMeans | bgpd/bgp_aspath.c:707-775 | the result decodes to the path with the AS in front if and only if the path is empty, or its first segment is not empty and its length octet does not wrap (or it is one empty segment of the same type) |
| AsPathEdit.Overfull | bgpd/bgp_aspath.c:733-752 | no byte string decodes into a segment of 256 entries, so a wrapped length octet loses the path |
| AsPathEdit.AddedIsFirst | bgpd/bgp_aspath.c:532-553 | an AS added as AS_SEQUENCE passes aspath_firstas_check, whatever the octets were before |
| AsPathEdit.FirstAsMeans | bgpd/bgp_aspath.c:532-553 | on encoded paths aspath_firstas_check succeeds if and only if the first segment is an AS_SEQUENCE that begins with the AS |
| AsPathEdit.DropConfedMeans | bgpd/bgp_aspath.c:853-890 | what is dropped is a leading run of AS_CONFED_SEQUENCEs, and all of it |
| AsPathEdit.OccursMeans | bgpd/bgp_aspath.c:555-582 | an AS is counted if and only if it stands in some segment |
| AsPathEdit.OccursCons | bgpd/bgp_aspath.c:707-775 | adding an AS raises its count by one and no other |
| AsPathEdit.OccursJoined | bgpd/bgp_aspath.c:637-705 | the count of an AS in a prepended path is the sum over both parts |
| AsPathEdit.TypedCons | bgpd/bgp_aspath.c:707-775 | adding an AS puts it, with its type, in front of all entries and keeps those in order |
| AsPathEdit.TypedJoined | bgpd/bgp_aspath.c:637-705 | the entries of a prepended path, with the types of their segments, are those of the first path and then those of the second, in order |
| AsPathEdit.CountJoined | bgpd/bgp_aspath.c:637-705 | the number of hops of a prepended path is the sum over both parts |
| AsPathEdit.AsPath.AddOneAs | bgpd/bgp_aspath.c:707-775 | octets that decode come to decode to the path with the AS in front if and only if the path is addable (see AddedMeans); the octets begin with the AS in any case |
| AsPathEdit.AsPath.DeleteConfedSeq | bgpd/bgp_aspath.c:853-890 | the octets of any path become those of the path without its leading AS_CONFED_SEQUENCE run |
| AsPathEdit.AsPath.LoopCheck | bgpd/bgp_aspath.c:555-582 | the loops over octets count the occurrences of the AS in the decoded path |
| AsPathEdit.AsPath.Prepend | bgpd/bgp_aspath.c:637-705 | the octets become those of the joined path as long as two meeting AS_SEQUENCEs have at most 255 entries together, they decode to it if and only if that is so, and a right count stays right |
| AsPathEdit.AddedTwice | bgpd/bgp_aspath.c:707-775 | two additions put both ASes in front of the decoded path if and only if each can be added in its turn |
| AsPathEdit.RewriteForEbgp | bgpd/bgp_attr.c:1353-1375 | the path for an EBGP peer passes aspath_firstas_check for the AS added last, whatever the path; in all three ways it decodes to the old path, confederation segments dropped or not, with the ASes in front if and only if each can be added in its turn |
| AsPathEdit.RewrittenOccurs | bgpd/bgp_attr.c:1353-1375 | every AS occurs in that path as often as before and once more for each time it was added |
| AsPathEdit.RewrittenEntries | bgpd/bgp_attr.c:1353-1375 | an EBGP peer sees, in front of the entries kept, the confederation identifier, or the local AS, or the changed AS and then the local AS |
| AsPathAggregate.CommonLeads | bgpd/bgp_aspath.c:469-499 | what the first loop copies is a leading part of both paths |
| AsPathAggregate.CommonLongest | bgpd/bgp_aspath.c:469-499 | on paths without empty segments every common leading part leads into what is copied |
| AsPathAggregate.LeadIs | bgpd/bgp_aspath.c:469-505 | where the first loop stops, and the value it leaves in `match`, in terms of the number of equal leading segments |
| AsPathAggregate.AggregateShape | bgpd/bgp_aspath.c:439-530 | the result is a leading part of both inputs followed by at most one new AS_SET without repeats, and every AS in it stands in an input |
| AsPathAggregate.AggregateIs | bgpd/bgp_aspath.c:439-530 | the result outright: the common segments that have entries, what the next ones share if their types agree, and one AS_SET with every entry seen once, in the order in which they first stand in what is left of the first path and then of the second |
| AsPathAggregate.LosslessIff | bgpd/bgp_aspath.c:469-527 | no AS is lost if and only if the paths go on with segments of one type behind their k equal leading segments, or the first m entries of both k-th segments, m being the length of segment k-1, stand in the common segments or further behind |
| AsPathAggregate.FirstPairLossless | bgpd/bgp_aspath.c:469-527 | no AS is lost when the first segments differ or a path is empty |
| AsPathAggregate.SingleSegmentsLossless | bgpd/bgp_aspath.c:439-530 | no AS is lost when each input has at most one segment |
| AsPathAggregate.LosesSecondSegment | bgpd/bgp_aspath.c:504-527 | aggregating 1 2 / 3 4 with 1 2 gives 1 2: two ASes are lost |
| AsPathAggregate.AddAllMeans | bgpd/bgp_aspath.c:504-527 | the set has every entry that the loops see once, and no others |
| AsPathAggregator.SegmentCopy | bgpd/bgp_aspath.c:364-389 | the octets grow by the segment of the first k entries |
| AsPathAggregator.AsSetAdd | bgpd/bgp_aspath.c:391-437 | the octets of the AS_SET grow by the member unless it is there; the length octet wraps exactly at the 256th member |
| AsPathAggregator.CommonLead | bgpd/bgp_aspath.c:457-502 | the first loop, on octets, stops where LeadIs says with the octets of the common part |
| AsPathAggregator.Aggregate | bgpd/bgp_aspath.c:439-530 | the octets of the result that the statements above are about, if and only if its new AS_SET has at most 255 members |
| Communities.UniqSortMeans | bgpd/bgp_community.c:161-185 | a list is the result if and only if it is strictly ascending and has exactly the members of the input |
| Communities.AscendingUnique | bgpd/bgp_community.c:161-185 | a strictly ascending list is determined by its members, so any sort gives the same result |
| Communities.UniqSortFixed | bgpd/bgp_community.c:161-185 | a list is left as it is if and only if it is strictly ascending |
| Communities.EmbedsIsSubset | bgpd/bgp_community.c:403-430 | on ascending lists the single forward scan succeeds if and only if every member of the second list is in the first |
| Communities.TextToken | bgpd/bgp_community.c:474-569 | the scanner reads back every printed value, well-known names included, and stops behind it |
| Communities.TextsAre | bgpd/bgp_community.c:187-290 | 0, 0xFFFFFF01, 0xFFFFFF02 and 0xFFFFFF03 are printed as internet, no-export, no-advertise and local-AS, any other value as its high half, a colon and its low half |
| Communities.NumeralsRead | bgpd/bgp_community.c:530-566 | a numeral is read as a value, two with a colon between them as its halves, modulo 2 to the 32; a colon without digits behind it and a second colon are refused |
| Communities.TextRoundTrip | bgpd/bgp_community.c:187-290 | reading the text of any non-empty list gives its sorted list without repeats; the list itself if and only if it is strictly ascending and not empty |
| Communities.AcceptedIsStable | bgpd/bgp_community.c:571-608 | whatever text is accepted, printing and reading its result changes nothing |
| Communities.DeletedMeans | bgpd/bgp_clist.c:525-545 | a value goes if and only if a permit entry matches it and no entry before does |
| Communities.MatchesMeans | bgpd/bgp_clist.c:528-535 | an entry matches everything, the values of its list, or the values whose text its expression takes |
| Communities.StandardDeleted | bgpd/bgp_clist.c:525-545 | on a standard list a value goes if and only if the first entry that names it is a permit |
| Communities.KeptMembers | bgpd/bgp_clist.c:500-548 | the values that stay are exactly those of the input that do not go |
| Communities.DeleteStep | bgpd/bgp_clist.c:519-546 | deleting the first occurrence of a value deletes the one at hand, since the earlier ones are gone |
| Communities.Community.Include | bgpd/bgp_community.c:133-145 | true if and only if the value is in the list |
| Communities.Community.DelVal | bgpd/bgp_community.c:64-97 | the first occurrence of the value is gone and the order kept; memory behind the array is written if and only if pointers have eight octets and more than one value follows |
| Communities.ThreeValues | bgpd/bgp_community.c:78-81 | deleting the first of three values writes behind the array with pointers of eight octets, the first of two does not |
| Communities.Community.Sorted | bgpd/bgp_community.c:161-185 | the list of UniqSortMeans |
| Communities.Community.Com2Str | bgpd/bgp_community.c:187-290 | the text of the list; with its terminator it fits the space computed before |
| Communities.Community.MatchDelete | bgpd/bgp_clist.c:500-548 | in order, exactly the values whose first matching entry is absent or not a permit, repeated values included; memory behind the copy is written if and only if pointers have eight octets and a value other than the last two is deleted |
| Communities.Match | bgpd/bgp_community.c:403-430 | two NULLs match, one does not; otherwise the second list lies in the first in order, which on ascending lists means inclusion |
| Communities.ReadToken | bgpd/bgp_community.c:474-569 | the scanning loop gives the specified token, in 32-bit arithmetic |
| Communities.Parse | bgpd/bgp_community.c:571-608 | NULL exactly for an unknown token or no value at all; otherwise the sorted values without repeats |
| Decimal.ReadBack | bgpd/bgp_community.c:553-554 | digits read back give the number written, in every integer type that holds it |
| Decimal.NumeralIs | bgpd/bgp_community.c:279-284 | a numeral is its decimal digits, the highest first and none of them a leading zero |
| Decimal.ShortNumeral | bgpd/bgp_aspath.c:189-197 | a 16-bit number takes at most five characters |
| AttrIntern.CmpMeans | bgpd/bgp_attr.c:317-342 | on interned parts comparing addresses is comparing contents, and attributes that compare equal have equal keys |
| AttrIntern.ReferencedIsLive | bgpd/bgp_attr.c:379-426 | a part exists if and only if an interned attribute points at it or somebody holds it directly |
| AttrIntern.InternedOnce | bgpd/bgp_attr.c:379-426 | two interned attributes agree in compared fields and contents if and only if they are one entry |
| AttrIntern.NewPartKeeps | bgpd/bgp_aspath.c:254-275 | entering a part that is not there keeps all counts exact and contents unique |
| AttrIntern.DropRefKeeps | bgpd/bgp_aspath.c:76-92 | dropping a direct reference keeps all counts exact; the part is freed only when nothing refers to it |
| AttrIntern.BindOldKeeps | bgpd/bgp_attr.c:422-425 | one more reference to an attribute takes over the references just taken to its parts, and all counts stay exact |
| AttrIntern.BindNewKeeps | bgpd/bgp_attr.c:422-425 | so does entering a new attribute |
| AttrIntern.UnbindKeeps | bgpd/bgp_attr.c:529-543 | one reference less turns its references into direct ones, and all counts stay exact |
| AttrRuns.InternMeans | bgpd/bgp_attr.c:379-426 | the attribute handed out has the compared fields of the candidate and parts of the same contents; it has one more reference and no other attribute, content or direct reference changes |
| AttrRuns.InternFaithfulIff | bgpd/bgp_attr.c:317-342 | it agrees with the candidate in the fields not compared as well if and only if no interned attribute agrees in all compared fields and contents and differs in those |
| AttrRuns.OriginatorConflated | bgpd/bgp_attr.c:317-342 | two attributes that differ in originator_id only become one: the second caller gets the first originator |
| AttrRuns.UninternMeans | bgpd/bgp_attr.c:518-556 | one reference less to that attribute, which leaves the table with its last one; all counts stay exact and nothing else changes |
| AttrRuns.RunsBalance | bgpd/bgp_attr.c:379-556 | in every state of every run of parses, releases, interns and uninterns, the count of each part is the summed counts of the attributes pointing at it plus the direct references |
| AttrRuns.HeldIsLive | bgpd/bgp_attr.c:379-556 | in every state of every run an attribute in the table points only at live parts of the right kind, whose counts cover its own |
| AttrRuns.KeyFirst | lib/hash.c:65-95 | looking at the bucket key before comparing misses no entry |
| AttrRuns.Tables.InternPart | bgpd/bgp_aspath.c:254-275 | the part of that content, found or entered, with one more reference |
| AttrRuns.Tables.UninternPart | bgpd/bgp_aspath.c:76-92 | one reference less; gone with the last one |
| AttrRuns.Tables.Find | lib/hash.c:65-95 | the search by key and comparison finds the entry that compares equal, if there is one |
| AttrRuns.Tables.InternAttribute | bgpd/bgp_attr.c:379-426 | the tables and the entry that InternMeans describes |
| AttrRuns.Tables.UninternAttribute | bgpd/bgp_attr.c:518-556 | the tables that UninternMeans describes |
| AttrParse.SplitEncoded | bgpd/bgp_attr.c:1152-1211 | splitting the concatenation of encoded records gives the records back |
| AttrParse.EncodeSplit | bgpd/bgp_attr.c:1152-1211 | whatever splits is the concatenation of the records it splits into |
| AttrParse.WithPartial | bgpd/bgp_attr.c:1105-1109 | the Partial bit is set and no other bit changes |
| AttrParse.MarkRegionMeans | bgpd/bgp_attr.c:1105-1109 | the region is left with the Partial bit in exactly the unrecognised optional transitive records |
| AttrParse.ExpectedStep | bgpd/bgp_attr.c:1153-1274 | success of a region is success of its first record and of the rest with that type seen |
| AttrParse.Unknown | bgpd/bgp_attr.c:1068-1130 | not optional: failure; not transitive: ignored; otherwise the record is marked in the input and appended to transit |
| AttrParse.Dispatch | bgpd/bgp_attr.c:1213-1273 | a recognised record goes well exactly when its handler succeeds and moves the read pointer to the announced end |
| AttrParse.Parse | bgpd/bgp_attr.c:1132-1292 | the loop gives the expected outcome for every input and handler, changes nothing outside the region and, on success, only the Partial bits inside |
| AttrParse.ParseMeans | bgpd/bgp_attr.c:1132-1292 | on whole records: success with this attribute and this transit value if and only if all types differ, every record goes well in order and transit is the in-order concatenation of the marked records |
| AttrParse.ParsedIsRecords | bgpd/bgp_attr.c:1132-1292 | a region that succeeds splits exactly into records with pairwise distinct types, and transit and the marks are those of the records |
| AttrParse.ExactConsumption | bgpd/bgp_attr.c:1264-1273 | on success every recognised record was consumed to exactly its length by its handler, run on the attribute that the records before it have built; every unrecognised one was optional; and the last attribute built is the result |
| AttrParse.RecordFormat | bgpd/bgp_attr.c:1152-1211 | a record is its flag, its type, its length in one octet or, with the bit 0x10, in two in network order, and its value |
| AttrParse.OneRecord | bgpd/bgp_attr.c:1213-1273 | a region of one record: types 1 to 10 and 14 to 16 give exactly the verdict of the handler, pass nothing on and leave the input alone; any other type fails with a flag below 0x80, is ignored with one below 0xC0 and else is passed on with the bit 0x20 set, whatever the handlers are |
| Buffers.Buffer.Empty | lib/buffer.c:96-104 | true if and only if the queue is empty, also while a flush is under way, although only the last chunk is looked at |
| Buffers.Buffer.Write | lib/buffer.c:150-188 | the queue grows by exactly the bytes, in order; every chunk stays non-empty and all but the last full; what was handed out followed by the queue is what was written |
| Buffers.Buffer.Gather | lib/buffer.c:227-248 | the vector and the rest of the queue make up the old queue, the vector has the asked number of bytes (or all) and at most one entry for each chunk |
| Buffers.Buffer.Free | lib/buffer.c:253-265 | freeing the used chunks leaves the queue as it is and the count right |
| Buffers.Buffer.Flush | lib/buffer.c:217-268 | at most n bytes leave in order, in at most alloc entries; handed out plus queue stays all bytes written |
| Buffers.Buffer.FlushAll | lib/buffer.c:270-298 | everything leaves in one vector of alloc entries, and the queue is empty |
| Buffers.Buffer.GatherInt | lib/buffer.c:424-443 | the loop with its int counter: vector and rest make up the old queue, and the vector has the number of bytes that the counter lets through |
| Buffers.LetThroughIs | lib/buffer.c:424-443 | with chunks shorter than 2 to the 31 octets the counter lets through what the int asks for modulo 2 to the 32, or everything |
| Buffers.Buffer.FlushVty | lib/buffer.c:384-519 | as Flush with the number of bytes the int counter lets through, which is the number asked for or everything with chunks below 2 to the 31 octets; at most alloc plus two entries; the prompt is shown exactly when bytes stay behind; all of it reaches writev if and only if no call but the last fails |
| Buffers.CounterIsAsked | lib/buffer.c:425-443 | the int counter, compared with and decremented by unsigned lengths, acts as its value modulo 2 to the 32: a negative size asks for 2 to the 31 bytes or more |
| Buffers.WriteBatches | lib/buffer.c:455-487 | batches of at most IOV_MAX entries, in order; everything is passed on if and only if no call but the last fails, and the result is the failure or the sum |
| Buffers.ChunksNeeded | lib/buffer.c:150-188 | the number of chunks is the least that holds the queue and the bytes already taken from the first chunk |
| Checksum.InCksum | lib/checksum.c:11-47 | the loop and the two folds give the complement of the folded word sum, with a long of 64 bits or one of 32 bits that holds the sum; of the residue of the word sum for up to 131076 bytes and for any sum of 32 bits |
| Checksum.TwoFoldsSuffice | lib/checksum.c:39-43 | for every 32-bit sum two folds reach the representative in 1..65535 modulo 65535, and 0 only for 0 |
| Checksum.FoldsSuffice | lib/checksum.c:39-43 | two folds reach the one's-complement sum of every input of n bytes if and only if n is at most 131076, on either byte order |
| Checksum.FailingSum | lib/checksum.c:39-43 | for every longer length, an input with the least sum on which they fail |
| Checksum.FirstFailure | lib/checksum.c:39-43 | two folds reach the representative of every sum below that one, and not of it |
| Checksum.FoldsSufficeIff | lib/checksum.c:39-43 | on any one sum of an int number of bytes they do if and only if the second leaves no carry |
| Checksum.SumsFit | lib/checksum.c:17-30 | a 64-bit long holds the sum of any int number of bytes |
| Checksum.LongSuffices | lib/checksum.c:17-30 | every input of n bytes sums within 31 bits if and only if n is at most 65536 (65537 on a little-endian machine) |
| Checksum.VerifiesIff | lib/checksum.c:11-47 | with a word stored in an aligned zero field the whole gives 0 if and only if the word is the checksum, 0 and 0xffff counting as one unless all words are 0 |
| Checksum.StoredChecksumVerifies | lib/checksum.c:11-47 | recomputing with the checksum stored in an aligned zero word gives 0 |
| Checksum.SwapCommutes | lib/checksum.c:11-47 | exchanging the bytes of all words exchanges the bytes of the result, so both byte orders store the same two bytes |
| Checksum.AllOnesIffZeroData | lib/checksum.c:11-47 | the result is 0xffff if and only if the data is all zero |

## Left out

- User interface, logging, dumping, SNMP, start-up, sockets, timers, the finite state machine, route
  flap damping, route maps, filters and regular expressions; an expression is a predicate on texts.
- `bgp_node_match_ipv4`, `bgp_node_match_ipv6`, `bgp_table_free` and the `table` pointer of a node; all
  prefixes of one table are of one address family.
- Prefixes are bit strings with host bits behind them; `Prefix.dfy` ties the byte-wise operations to that.
- In the Adj-RIB-Out model the doubly linked FIFOs and chains are sequences, the reference counts of the
  attributes themselves and the lock of the route node are not counted, and other peers are present only as
  other entries in the list of a node. Clearing on session teardown and NULL `rn` or `attr` are not modelled.
- Sending is an event with a message; the stream is its room. Attributes are counted in octets and their
  contents are not modelled, so neither is what becomes of attributes that the stream cuts off, nor of those
  behind MP_REACH_NLRI. After an overrun the writes behind the stream are an outcome of their own, and a chain
  has fewer than 2 to the 59 records.
- AdjRibSync.WrittenInOrder: whether a route is older than `synctime` (`binfo->uptime`) and whether a restarting
  peer has sent its End-of-RIB is one predicate on prefixes, fixed while the calls last; clocks, the End-of-RIB
  message and messages already waiting in `obuf` are not modelled.
- `bgp_process` is modelled up to the announcements; what it tells peers is the Adj-RIB-Out model.
- Redistributed, static and aggregate routes only as sub-types in the comparison.
- Addresses in the comparison are ranks under `sockunion_cmp`; router identifiers are compared in host order.
- AsSegments.LeftExclusive: `aspath_cmp_left` reads behind a path of confederation segments only; the model
  takes what lies there as no AS, because its contents are not determined. `aspath_firstas_check` on an empty
  AS_SEQUENCE likewise.
- AsPathEdit.AsPath.DeleteConfedSeq: the overlapping memcpy of `aspath_delete_confed_seq` is taken to copy
  forward, since what else it does is not determined.
- A zero-length allocation of AS path octets is not told apart from NULL data.
- AsPathAggregator.Aggregate: what the octets are after the length octet of the new AS_SET has wrapped is not
  modelled; they depend on memory that nobody has written.
- AsPathPrinter.AsAdd: a write outside the enlarged memory is an outcome of its own, and what it destroys is
  not modelled.
- Communities.Community.DelVal: what the writes behind the array destroy is not modelled, and the overlapping
  memcpy is taken to copy forward.
- `ecommunity_add_val`, `ecommunity_match` and the text of extended communities.
- The hash tables are sets of entries with a search by key and comparison; bucket chains are not modelled.
- Candidate attributes are values with pointers to live parts or fresh contents; the string caches of AS
  paths and communities and `bgp_attr_flush` are left out.
- The thirteen attribute handlers are one function parameter, which sees the attribute so far and the input
  from the value on; the notifications sent on failure are one failure outcome.
- Buffers.Buffer.FlushVty: chunks are shorter than 2 to the 63 octets, the size of the largest object.
- In `buffer.c` the chunk memory is owned by one buffer, so chunks are values in a list; `buffer_getstr`,
  `buffer_flush_window`, `buffer_flush_vty_all` and the unused list are left out, and so is the branch without IOV_MAX.
- Checksum.InCksum: with a `long` of 32 bits a sum of 2 to the 31 or more is left out, since signed overflow
  has no meaning; LongSuffices says which lengths are safe.
