# Verification of wpa_supplicant's protocol engines and tables

Dafny models and proofs for the stateful parts of wpa_supplicant with Hotspot 2.0 roaming. Run
`dafny verify dfyconfig.toml` to check everything.

Each part has a module of value-level definitions (states, transitions, runs and the lemmas about
them) and, where the program changes objects in place or loops over buffers, a module of classes
and methods that are proved to compute exactly those transitions.

| part | modules |
|---|---|
| GAS query engine (section 10.24.3.1 of IEEE Std 802.11-2012) | GasFrame, GasQuery, GasEngine, GasObjects |
| ANQP fetch round on top of it | AnqpFetch, AnqpFetchObjects |
| Network list and priority index | Networks, PriorityIndex, NetworkList |
| Network selection with blacklist | Blacklist, ScanMatch, NetworkSelection |
| BSS table | HandleLists, BssTable, BssObjects |
| Configuration file round trip | CText, ConfigLine, ConfigValue, ConfigField, ConfigBlock, ConfigTable, ConfigFile, ConfigReader, ConfigStream |
| NAI Realm element (section 8.4.4.10 of IEEE Std 802.11-2012) | NaiRealm, NaiLayout, NaiCursor, NaiMatch |
| P2P service discovery | ServiceDiscovery, SdObjects |
| IBSS RSN key choice (section 8.4.9 of IEEE Std 802.11-2007) | IbssRsn, IbssHistory, IbssObjects |
| Learning background scan | BgscanLearn, BgscanObjects |
| TKIP countermeasures (section 8.3.2.4 of IEEE Std 802.11-2007) | MichaelMic, MicObjects |
| Octets and small data types | Octets |

## How the code is modelled

- Memory allocation succeeds. Ids, handles and update counters are unbounded numbers; handles
  stand for addresses. The fragment id of GAS stays a 7-bit field of one octet.
- What comes from outside is a parameter: whether a frame can be sent, random nonces and delays,
  the time of an event, WPS answers, which entries of the BSS table a lookup finds, which global
  lines of the configuration file are good, and the octet behind a received buffer.
- Bit masks are sets of flags. Text is a sequence of characters below 256.
- Callbacks are data: a list of engine calls that may themselves carry callbacks.
- The two 4-way handshakes of a pair are modelled by their four messages; a MIC is right exactly
  when both sides have the same nonces. Messages may be lost, repeated and reordered.

Where the code does not do what one would expect, the model follows the code and a lemma says
exactly when the expected property holds:

- bss.c:75 makes every lookup of a BSSID outside the filter fail, so such a scan result is added
  again (`BssTable.UniqueIffAdmitted`, `BssTable.AddedTwice`).
- events.c:767 gives up on a chain when the BSS table does not know the scan result that was
  found (`NetworkSelection.BestIffKnown`, `NetworkSelection.PickIffKnown`), so that a blacklist
  can help to find a network (`NetworkSelection.BlacklistOnlyReorders`,
  `NetworkSelection.FoundOnlyWithBlacklist`).
- interworking.c:922 ignores a request that was not sent, and the round then stays in progress
  (`AnqpFetch.RoundOutcome`).
- config_file.c:496-574 never writes mixed_cell, frequency, wpa_ptk_rekey, bgscan, scan_freq and
  freq_list, so these are lost; config_file.c:113-121 removes CCMP from the group ciphers of
  some blocks, and blocks without a needed key are rejected; a newline in a passphrase and names
  of EAP methods beyond 99 characters do not come back (`ConfigFile.NetworkRoundTrip`,
  `ConfigFile.UnwrittenLost`, `ConfigFile.NewlineLost`, `ConfigFile.ManyMethodsLost`).
- config_file.c:59-70 looks for comments behind the last double quote if there are two or more,
  so a comment with quotes can stay in the value (`ConfigLine.CommentsAreRemoved`,
  `ConfigLine.QuotedCommentKept`).
- config_file.c:113-121 can leave a block without any group cipher, which the writer leaves out,
  so that reading it again gives TKIP and WEP (`ConfigReader.GroupWidens`).
- A lower limit of 0 in the field table is no limit (config.c:240), so negative values are
  accepted there (`ConfigField.WithinLimitsIff`, `ConfigField.NegativeAccepted`).
- bgscan_learn.c:249-268 loops forever when the last probe was at index 0 and nothing is new
  (`BgscanLearn.NeverEnds`, `BgscanLearn.Ends`), and a BSS with frequency 0 ends the list early
  (`BgscanLearn.EachLearnedOnceIff`).
- events.c:1623-1631 sends a pending MIC error report but leaves it pending
  (`MichaelMic.ReportsAreCounted`, `MichaelMic.ReportSentTwice`).
- interworking.c:206 checks the parameters of an EAP method against the end of the realm, not of
  the method (`NaiRealm.OwnOctetsIff`, `NaiRealm.BorrowedParameter`); reads stay within the
  buffer, and the reference encoder may pad.
- p2p_supplicant.c:1462 reads a length with a single octet left
  (`ServiceDiscovery.OverReadsIff`, `ServiceDiscovery.OverReadsSix`).
- p2p_supplicant.c:1284 wants room for two octets for every name, also for an empty one that
  takes one (`ServiceDiscovery.UpnpListsAll`, `ServiceDiscovery.EmptyNameCut`).
- A rekeying whose last message is lost leaves two stations of an IBSS with different keys
  (`IbssRsn.EndsAgree`, `IbssRsn.EndsMayDiffer`).

Two places are modelled by their intent: gas_query.c:459-463 frees an entry whose first frame
could not be sent without taking it off the list; the model takes it off. interworking.c:1179-1180
marks the BSS of a response without a test whether the table still has it; the model marks nothing
then.

## Model

| member | source | states |
|---|---|---|
| `GasFrame.BuildThenParse` | wpa_supplicant/gas_query.c:283-395 | every response frame that can be built (status, fragment id, more bit, comeback delay, Advertisement Protocol element, payload) is read back field by field by the checks of gas_query_rx, for all field values |
| `GasFrame.ParseThenBuild` | wpa_supplicant/gas_query.c:283-395 | only such frames are accepted: a frame with a body is the one built of its fields, with octets behind it that are ignored |
| `GasQuery.PendingCollects` | wpa_supplicant/gas_query.c:196-280 | invariant of one query over every transcript: while it is pending it is as created, or it holds exactly the concatenation of the fragments so far, their number as next fragment id, and the initial Advertisement Protocol element |
| `GasQuery.SuccessIsReassembly` | wpa_supplicant/gas_query.c:119-395 | a success is the initial response itself, or after comeback the in-order concatenation of fragments 0..k, at most 128, all under the initial Advertisement Protocol element, only the last without the more bit |
| `GasQuery.StrayFragmentIsPeerError` | wpa_supplicant/gas_query.c:227-280 | a fragment that is repeated, skipped or out of order ends the query as a peer error, after every transcript |
| `GasQuery.HowItEnds` | wpa_supplicant/gas_query.c:148-406 | after every transcript: success exactly with a complete initial response or the last fragment in order, with the response delivered; failure exactly with a response of the expected kind and nonzero status; timeout, cancelled and internal error exactly by the overall timer, a cancel and a comeback request that is not sent; peer error exactly with a comeback response that contradicts the earlier ones; the comeback timer is set exactly by a response that asks for it |
| `GasQuery.InitialResponseSucceeds` | wpa_supplicant/gas_query.c:196-224 | the ordinary exchange: an initial response without a delay is delivered whole as a success, or is a failure if its status is not zero, after every transcript that has not opened the comeback exchange |
| `GasQuery.FragmentThenReassemble` | wpa_supplicant/gas_query.c:119-395 | cutting any response into 1 to 128 parts and sending them by comeback delivers it whole; with more parts, and only then, the query ends as a peer error |
| `GasEngine.ApplyInv` | wpa_supplicant/gas_query.c:74-481 | every request, frame, timer and cancel keeps: pending (address, token) pairs and ids are distinct; each query ever accepted is listed with its overall timer armed once and no callback, or unlisted with exactly one callback and no timer |
| `GasEngine.ExactlyOnce` | wpa_supplicant/gas_query.c:74-88 | over every run each accepted query gets its callback at most once, is listed with its overall timer until then and unlisted with no timer naming it afterwards, and callbacks are never revised |
| `GasEngine.RefusedIffFull` | wpa_supplicant/gas_query.c:409-470 | a request that can be sent is refused exactly when 256 queries are pending for its address; otherwise it is pending first, for its address, frequency and client, with a token that no pending query for the address holds |
| `GasEngine.AtMostOneMatch` | wpa_supplicant/gas_query.c:106-116 | an input is for one pending query at most: for a response the only one with its address and token; every other pending query stays as it is |
| `GasEngine.RunIsFold` | wpa_supplicant/gas_query.c:283-395 | in any run, whatever happens to other queries, a query fares exactly as the one-query automaton fed with the inputs addressed to it |
| `GasEngine.AddressedIff` | wpa_supplicant/gas_query.c:283-307 | for each pending query and each call: a frame of at least four octets with action 11 or 13 reaches it exactly if address and dialog token are its own, a cancel likewise, and a running timer exactly if it is its own |
| `GasEngine.SuccessInRun` | wpa_supplicant/gas_query.c:196-395 | in any run a success reported for a query is the in-order reassembly of the frames addressed to that query |
| `GasEngine.EndsInRun` | wpa_supplicant/gas_query.c:148-406 | in any run every input for a pending query has exactly the effect that HowItEnds states for the transcript of that query |
| `GasEngine.RespondIsRun` | wpa_supplicant/gas_query.c:74-88 | a call together with everything its callback does (new requests, cancels, their callbacks, to any depth) equals a run of plain calls, so all run properties hold with re-entrant callbacks |
| `GasEngine.PerformIsRun` | wpa_supplicant/gas_query.c:74-88 | the same for the list of calls that a callback makes |
| `GasObjects.PendingQuery.Append` | wpa_supplicant/gas_query.c:119-128 | appends a fragment to the response buffer, creating it with the first |
| `GasObjects.GasQueries.GetPending` | wpa_supplicant/gas_query.c:106-116 | finds the first query with address and token, or none |
| `GasObjects.GasQueries.TokenAvailable` | wpa_supplicant/gas_query.c:409-420 | true exactly when no pending query for the address holds the token |
| `GasObjects.GasQueries.Complete` | wpa_supplicant/gas_query.c:74-88 | unlinks the entry, cancels its timers and logs its callback before anything else can run; nothing else changes |
| `GasObjects.GasQueries.PerformActs` | wpa_supplicant/gas_query.c:74-88 | the calls of a callback, made on the engine after the entry was unlinked, lead to the specified state |
| `GasObjects.GasQueries.PickToken` | wpa_supplicant/gas_query.c:437-442 | the first free dialog token, 256 if there is none |
| `GasObjects.GasQueries.Request` | wpa_supplicant/gas_query.c:423-470 | new state is that of the request transition; returns -1 exactly when nothing changed, else the token, which is put into the frame |
| `GasObjects.GasQueries.CancelPending` | wpa_supplicant/gas_query.c:473-481 | new state is that of the cancel transition |
| `GasObjects.GasQueries.OverallTimeout` | wpa_supplicant/gas_query.c:398-406 | the overall timer ends its query as a timeout |
| `GasObjects.GasQueries.ComebackTimeout` | wpa_supplicant/gas_query.c:169-177 | the comeback timer sends the next comeback request, or ends the query if that fails |
| `GasObjects.GasQueries.TxComebackReq` | wpa_supplicant/gas_query.c:148-166 | sends a comeback request, or ends the query with an internal error |
| `GasObjects.GasQueries.TxComebackReqDelay` | wpa_supplicant/gas_query.c:180-193 | cancels an older comeback timer of the query and arms one |
| `GasObjects.GasQueries.RxInitialResp` | wpa_supplicant/gas_query.c:196-224 | an initial response completes the query or starts the comeback exchange; the result is that of the transition, which HowItEnds pins |
| `GasObjects.GasQueries.RxComebackResp` | wpa_supplicant/gas_query.c:227-280 | a comeback response is a new delay, a fragment to append, the last fragment, or an error |
| `GasObjects.GasQueries.Receive` | wpa_supplicant/gas_query.c:283-395 | all checks of a received frame in their order; the new state is that of the receive transition |
| `GasObjects.GasQueries.Dispatch` | wpa_supplicant/gas_query.c:309-394 | a frame that was matched with a query, with the nested calls of its callback, takes the objects to exactly the state of the engine transition |
| `AnqpFetch.NextFetchKeeps` | wpa_supplicant/interworking.c:899-933 | one step of the fetch loop asks one BSS not asked before, and the number of untried eligible BSSs falls by one, or it ends the round |
| `AnqpFetch.FirstIsAsked` | wpa_supplicant/interworking.c:905-925 | a step of a round asks the first BSS that can do Interworking, is not fetched and was not tried, on its frequency; the request is refused exactly if it cannot be sent or 256 queries are pending for it |
| `AnqpFetch.InterworkingIff` | wpa_supplicant/interworking.c:911-913 | Interworking is bit 31 of the Extended Capabilities; fields of less than four octets do not have it |
| `AnqpFetch.EventKeeps` | wpa_supplicant/interworking.c:75-87 | every engine event with its callback keeps the round in order; the end of a query of the round strictly lowers the work that is left |
| `AnqpFetch.RoundOutcome` | wpa_supplicant/interworking.c:864-945 | over every run: each eligible BSS is asked at most once, and in a finished round each was asked or fetched; with nothing outstanding the round is over exactly unless its latest request did not start; selection has run exactly once if it was requested and the round is over, else not at all |
| `AnqpFetch.FetchedIff` | wpa_supplicant/interworking.c:1135-1187 | over every run an entry is marked as fetched exactly if it was before, or an ANQP query (of the round or a single one) has succeeded under an ANQP element for the BSSID of the entry and of none behind it |
| `AnqpFetch.EventIsRespond` | wpa_supplicant/interworking.c:75-87 | the round drives the query engine only from inside completion callbacks, with at most one new query each |
| `AnqpFetchObjects.Fetcher.Search` | wpa_supplicant/interworking.c:908-925 | finds the first eligible BSS that was not tried |
| `AnqpFetchObjects.Fetcher.Next` | wpa_supplicant/interworking.c:899-933 | new state is that of the fetch step |
| `AnqpFetchObjects.Fetcher.SelectNetwork` | wpa_supplicant/interworking.c:864-896 | clears the request for a selection and counts the selection |
| `AnqpFetchObjects.Fetcher.StartRound` | wpa_supplicant/interworking.c:936-945 | clears all tried flags and makes the first step |
| `AnqpFetchObjects.Fetcher.AnqpResponse` | wpa_supplicant/interworking.c:1135-1187 | marks the last entry with the answering BSSID as fetched, and no other, if the result is a success under an ANQP element |
| `AnqpFetchObjects.Fetcher.ResponseCallback` | wpa_supplicant/interworking.c:75-87 | marks the BSS as fetched if there was a response and makes the next step |
| `PriorityIndex.BuildPartitions` | wpa_supplicant/config.c:1546-1585 | adding networks one by one in list order gives chains whose priorities strictly decrease, each chain being exactly the networks of its priority in list order, with a chain for every priority in use |
| `PriorityIndex.IndexIsStableSort` | wpa_supplicant/config.c:1546-1615 | the chains one after the other are the stable sort of the network list by descending priority: sorted, same networks of each priority in the same order, same multiset |
| `PriorityIndex.StableSortUnique` | wpa_supplicant/config.c:1546-1615 | there is only one such list, so an index built step by step equals one rebuilt from scratch |
| `NetworkList.WpaConfig.AddPrioNetwork` | wpa_supplicant/config.c:1546-1585 | links pnext and shifts pssid so that the chains represent the index of the longer list; at most one link is new, to the new network from one that had none, and all others are unchanged |
| `NetworkList.WpaConfig.ExistingChain` | wpa_supplicant/config.c:1556-1561 | finds the chain of the same priority, or the number of chains |
| `NetworkList.WpaConfig.PlaceForChain` | wpa_supplicant/config.c:1573-1576 | the place before the first chain of lower priority |
| `NetworkList.WpaConfig.InsertChain` | wpa_supplicant/config.c:1566-1584 | a new chain in its place, later ones shifted by one |
| `NetworkList.WpaConfig.AppendToChain` | wpa_supplicant/config.c:1559-1561 | the network becomes the last of its chain, by one new link from the network that was the last |
| `NetworkList.WpaConfig.UpdatePrioList` | wpa_supplicant/config.c:1597-1615 | the rebuilt arrays represent the index of the current network list |
| `NetworkList.WpaConfig.AddNetwork` | wpa_supplicant/config.c:1790-1817 | the new network goes to the end of the list with an id above all others; index and id order are kept |
| `NetworkList.WpaConfig.RemoveNetwork` | wpa_supplicant/config.c:1826-1849 | removes the network with the id, fails if there is none; index and id order are kept |
| `NetworkList.WpaConfig.SetPriority` | wpa_supplicant/config.c:1597-1615 | after a priority change and a rebuild the index represents the changed list |
| `NetworkList.WpaConfig.AppendRead` | wpa_supplicant/config_file.c:289-309 | a network block that was read is appended to list and index, ids increasing along the list |
| `Blacklist.BssidBlacklist.Get` | wpa_supplicant/blacklist.c:27-40 | the entry of a BSSID, if there is one |
| `Blacklist.BssidBlacklist.Add` | wpa_supplicant/blacklist.c:59-83 | the count of the BSSID goes up by one, from 0 if it was not listed; all others stay |
| `Blacklist.BssidBlacklist.Del` | wpa_supplicant/blacklist.c:92-113 | the BSSID is no longer listed; all others stay; -1 if it was not listed |
| `Blacklist.BssidBlacklist.Clear` | wpa_supplicant/blacklist.c:120-133 | no BSSID is listed |
| `NetworkSelection.PassIsBest` | wpa_supplicant/events.c:740-801 | for all scans, configurations, blacklists and BSS tables: a pass finds nothing exactly when the table knows no pair that is best of its priority, else the best of those that it knows |
| `NetworkSelection.BestIffKnown` | wpa_supplicant/events.c:767 | the best pair is returned exactly when the BSS table knows its scan result |
| `NetworkSelection.PickIffKnown` | wpa_supplicant/events.c:774-801 | the whole selection returns the best pair under the blacklist at return exactly when the BSS table knows its scan result |
| `NetworkSelection.FoundOnlyWithBlacklist` | wpa_supplicant/events.c:767 | two BSSs of one network, the first blacklisted and unknown to the table: one is found with the blacklist and none without |
| `NetworkSelection.PickIsBest` | wpa_supplicant/events.c:774-801 | the pair that is picked is the best the table lets a pass find, under the blacklist in force at return; with none the blacklist is empty and there is none to find; with a table that knows every scan result it is best of all allowed pairs: maximal priority, then scan order, then configuration order |
| `NetworkSelection.PickedAgrees` | wpa_supplicant/events.c:288-737 | a network that is picked for a BSS is enabled and configured, the BSS is no IBSS, SSID and BSSID are equal if given, a frequency list holds the frequency, WPA networks share protocol, pairwise cipher, group cipher and key management with an element (and MFP is offered if required) unless WPS decides, privacy agrees, and the hardware has a mode with all basic rates |
| `NetworkSelection.PickedNotBlacklisted` | wpa_supplicant/events.c:612-631 | the BSS is not blacklisted at return, or once, if several networks are enabled and the picked one does not use WPS |
| `NetworkSelection.OrdinaryCandidates` | wpa_supplicant/events.c:288-737 | conversely every open, WEP or WPA2-Personal network is a candidate for every BSS that meets these conditions and is not blacklisted |
| `NetworkSelection.CandidateIff` | wpa_supplicant/events.c:288-737 | the exact condition, for all networks and scan results: a BSS is a candidate exactly if network and BSS agree (identity, wildcards, security or the answer of WPS, privacy, frequency list, rates of the mode that counts) and it is not blacklisted, or only once, with several networks enabled and no WPS |
| `ScanMatch.RatesIff` | wpa_supplicant/events.c:476-582 | the rate test holds exactly if all basic rates are in the mode that counts for the channel: the first 802.11g mode that has it, else the last |
| `NetworkSelection.BlacklistOnlyReorders` | wpa_supplicant/events.c:774-801 | a network is found with a blacklist exactly when one is found without, unless the blacklist holds back only unknown scan results that stand in front of known ones, which cannot be with a table that knows all; the blacklist stays or is emptied, and is empty when nothing is found |
| `NetworkSelection.Selector.ScanResMatch` | wpa_supplicant/events.c:585-737 | the first network of the chain that accepts the scan result, in the sense of CandidateIff |
| `NetworkSelection.Selector.SelectFrom` | wpa_supplicant/events.c:740-771 | the first scan result with a match in the chain, if the BSS table knows it |
| `NetworkSelection.Selector.PickNetwork` | wpa_supplicant/events.c:774-801 | result and blacklist are those of the specification; the loop ends after two turns at most |
| `NetworkSelection.Selector.OneTurn` | wpa_supplicant/events.c:774-801 | one pass over all chains in order of priority |
| `BssTable.RemoveInv` | wpa_supplicant/bss.c:44-68 | removing an entry keeps: both lists hold the same entries, num_bss is their number, ids strictly increase along the id list, last update index never decreases along the main list; keys stay unique |
| `BssTable.BothCounted` | wpa_supplicant/bss.c:44-68 | the id list is as long as the main list, which num_bss counts |
| `BssTable.UpdateInv` | wpa_supplicant/bss.c:320-354 | an update, even one that moves the entry to a new address, keeps all of these |
| `BssTable.ScanResInv` | wpa_supplicant/bss.c:373-403 | so does every scan result, with or without an eviction |
| `BssTable.EndInv` | wpa_supplicant/bss.c:447-469 | so does the end of a scan update; keys stay unique |
| `BssTable.EndExact` | wpa_supplicant/bss.c:406-469 | entry by entry: nothing changes without a new scan, for a used entry and for one outside the scanned frequencies or SSIDs; any other that was not sighted counts a miss, and goes exactly at the limit |
| `BssTable.FlushOldInv` | wpa_supplicant/bss.c:472-494 | so does flushing by age; entries that are in use or recent stay as they are |
| `BssTable.FlushOldExact` | wpa_supplicant/bss.c:483-493 | an entry goes exactly if it is unused and older, and no recent unused entry stands in front of it |
| `BssTable.FlushAllInv` | wpa_supplicant/bss.c:517-529 | so does flushing; exactly the entries in use stay |
| `BssTable.Eviction` | wpa_supplicant/bss.c:128-189 | an add keeps num_bss within the limit; an entry goes only when the limit forces one out, and then one of minimal last update index among those with unconfigured SSIDs, or among all if every SSID is configured |
| `BssTable.ScanResUnique` | wpa_supplicant/bss.c:71-84 | a scan result whose BSSID passes the filter keeps (BSSID, SSID) unique |
| `BssTable.ScanResShows` | wpa_supplicant/bss.c:373-403 | a scan result with an SSID of at most 32 octets that is no P2P discovery result is in the table afterwards with its key, frequency, time, elements and no misses, unless a full table pushes the new entry out; all other results change nothing |
| `BssTable.AddShows` | wpa_supplicant/bss.c:161-189 | a new entry carries the next id and all data of its result |
| `BssTable.UniqueIffAdmitted` | wpa_supplicant/bss.c:71-84 | for every table, full or not, a scan result keeps keys unique exactly when it is unusable, its BSSID passes the filter, or each entry with its key is pushed out of the full table, or the new one is |
| `BssTable.AddedTwice` | wpa_supplicant/bss.c:71-84 | a table in which the scan result of a known BSS outside the filter is added a second time |
| `BssTable.ScanEffect` | wpa_supplicant/bss.c:320-469 | effect of one scan on an entry that is not evicted: sighted entries have frequency, time and elements of the last result that sights them and start from zero, covered unused entries of a new scan that misses them count one more and go exactly at the limit, all others keep their count |
| `BssTable.ExpiryRun` | wpa_supplicant/bss.c:365-469 | over any run of scans an entry has the miss count its sightings and misses add up to and the frequency, time and elements of its last sighting, and is gone as soon as the count reaches the limit |
| `BssTable.KthMissExpires` | wpa_supplicant/bss.c:447-469 | an unused entry covered by every new scan disappears at the end of exactly the k-th consecutive one that misses it |
| `BssObjects.BssList.RemoveEntry` | wpa_supplicant/bss.c:44-68 | takes the entry out of both lists and counts down |
| `BssObjects.BssList.Get` | wpa_supplicant/bss.c:71-84 | the first entry with BSSID and SSID; none if the BSSID does not pass the filter |
| `BssObjects.BssList.RemoveOldest` | wpa_supplicant/bss.c:128-158 | removes the victim of the specification |
| `BssObjects.BssList.AddEntry` | wpa_supplicant/bss.c:161-189 | appends to both lists with the next id, then evicts if the limit is passed |
| `BssObjects.BssList.UpdateEntry` | wpa_supplicant/bss.c:320-354 | moves the entry to the end of the main list, keeps its id place, takes frequency, time and elements from the result, sets its update index and clears its miss count |
| `BssObjects.BssList.UpdateStart` | wpa_supplicant/bss.c:365-370 | a new update index |
| `BssObjects.BssList.UpdateScanRes` | wpa_supplicant/bss.c:373-403 | skips unusable results, else updates or adds |
| `BssObjects.BssList.UpdateEnd` | wpa_supplicant/bss.c:447-469 | counts misses and removes expired entries |
| `BssObjects.BssList.FlushByAge` | wpa_supplicant/bss.c:472-494 | removes old unused entries up to the first that is recent |
| `BssObjects.BssList.Flush` | wpa_supplicant/bss.c:517-529 | removes all entries that are not in use |
| `CText.HexRoundTrip` | wpa_supplicant/config.c:185-195 | any octets written as hexadecimal digits are read back |
| `CText.HexIff` | wpa_supplicant/config.c:185-195 | hexadecimal digits are 0-9, a-f and A-F, with their values |
| `CText.DecimalRoundTrip` | wpa_supplicant/config.c:230-279 | any integer printed with %d is read back by atoi |
| `CText.AtoiReads` | wpa_supplicant/config.c:230-279 | a number behind any white space and in front of anything that is no digit is read |
| `CText.WordsRoundTrip` | wpa_supplicant/config.c:651-765 | words written with single spaces between them are found again by the tokenising loop |
| `ConfigLine.LineRoundTrip` | wpa_supplicant/config_file.c:41-91 | a written line that fits the 256-octet buffer is read back by comment stripping and trimming as it was written, but for blanks at its end (# and double quotes inside a quoted value included), and reading goes on right behind it |
| `ConfigLine.CommentsAreRemoved` | wpa_supplicant/config_file.c:51-84 | a setting with blanks in front and a comment behind it, on a line that fits, is read without them exactly if the comment has no double quote too many |
| `ConfigLine.QuotedCommentKept` | wpa_supplicant/config_file.c:59-70 | a comment with quotes that stays in the value |
| `ConfigLine.NothingToRead` | wpa_supplicant/config_file.c:51-56 | blank lines and comment lines are skipped |
| `ConfigLine.NextLineHasNoNewline` | wpa_supplicant/config_file.c:41-91 | whatever the text is, no line that is read has a newline in it |
| `ConfigValue.StringRoundTrip` | wpa_supplicant/config.c:61-207 | any octets written as a quoted string or, with unprintable ones, as hexadecimal digits are read back |
| `ConfigValue.MaskRoundTrip` | wpa_supplicant/config.c:402-923 | every mask with at least one flag, all with a word, is read back from its words |
| `ConfigValue.MaskFits` | wpa_supplicant/config.c:454-923 | the text of a mask is shorter than the words of its table with a separator each |
| `ConfigValue.MacRoundTrip` | wpa_supplicant/config.c:283-324 | an address printed with colons is read back |
| `ConfigField.ValueRoundTrip` | wpa_supplicant/config.c:61-1350 | for every kind of field (string, C string, integer, address, passphrase or raw PSK, password or its hash, WEP key, EAP methods, frequencies, mask) a value the field can hold comes back, by its text or as the default of a field left out, exactly when the writer can say it: no newline in a passphrase, names of methods that fit the 100-octet buffer, no frequency list |
| `ConfigField.ReceivedIff` | wpa_supplicant/config.c:1124-1156 | a value without a newline always takes one line of the file, which gives it back exactly when the writer can say it; cut names of EAP methods are read as something else |
| `ConfigField.WithinLimitsIff` | wpa_supplicant/config.c:230-257 | a number accepted for a field with limits 0 and max lies between them exactly unless a negative number is written |
| `ConfigField.NegativeAccepted` | wpa_supplicant/config.c:240 | -5 is accepted for a field with limits 0 and 1 |
| `ConfigTable.MaskKindsOk` | wpa_supplicant/config.c:402-923 | the words of proto, key_mgmt, pairwise, group and auth_alg name all flags these fields may hold, and the parsers know them (WPA2 also stands for RSN) |
| `ConfigTable.MaskBuffers` | wpa_supplicant/config.c:454-923 | the buffers of 10, 50, 50 and 30 octets hold every mask: snprintf cuts nothing |
| `ConfigTable.TableIsOk` | wpa_supplicant/config.c:1441-1514 | the 66 fields have different names that a line can carry, their words and names are known to their parsers, and their defaults are values of them |
| `ConfigBlock.BlockRoundTrip` | wpa_supplicant/config_file.c:127-184 | for any table of fields: reading a written block stops right behind it and gives every field what its line says and all others their defaults; this is the block itself, without an error, exactly when each unwritten field has its default and the writer can say all others |
| `ConfigFile.NetworkRoundTrip` | wpa_supplicant/config_file.c:94-184 | a block whose lines fit the buffer comes back unchanged exactly when each unwritten field has its default, the writer can say all others, WPA-PSK has a key and the group ciphers are not stronger than the pairwise ones |
| `ConfigFile.NetworkGot` | wpa_supplicant/config_file.c:94-184 | what comes back of any block without newlines: written fields as their lines say, all others at their defaults, then validated; an error if a line is one |
| `ConfigFile.UnwrittenLost` | wpa_supplicant/config_file.c:496-574 | whatever an unwritten field (mixed_cell, frequency, wpa_ptk_rekey, bgscan, scan_freq, freq_list) holds, the block comes back with its default |
| `ConfigFile.MixedCellLost` | wpa_supplicant/config_file.c:496-574 | a block with mixed_cell=1 comes back with 0 |
| `ConfigFile.NewlineLost` | wpa_supplicant/config_file.c:127-184 | no file at all is read as a block with a newline in a passphrase |
| `ConfigFile.NewlinePassphraseLost` | wpa_supplicant/config.c:386-398 | a block with a newline in its passphrase does not come back |
| `ConfigFile.ManyMethodsLost` | wpa_supplicant/config.c:1124-1156 | a block with nine EAP methods whose names do not fit the writer's buffer does not come back |
| `ConfigFile.SectionRoundTrip` | wpa_supplicant/config_file.c:753-764 | behind any accepted global lines, what comes back of the saved networks is read in order, each as validation makes it; it is the saved networks themselves exactly when all are intact; temporary, pure WPS and keyless networks are not in the file |
| `ConfigFile.InFileIff` | wpa_supplicant/config_file.c:755-764 | a network is left out of the file exactly if it is temporary, for WPS alone, or allows WPA-PSK without a key; the block of any other stands between those of its neighbours |
| `ConfigReader.MaskIff` | wpa_supplicant/config.c:651-700 | a mask is read exactly from one or more words that are all known, and holds their flags and no others |
| `ConfigReader.FreqsRead` | wpa_supplicant/config.c:927-967 | a list of frequencies is read number by number |
| `ConfigReader.FreqsEnd` | wpa_supplicant/config.c:927-967 | it ends at a zero or at the end of the text |
| `ConfigReader.ParsedHolds` | wpa_supplicant/config.c:61-1313 | whatever is accepted for a field is a value of the field: lengths, limits, known words and methods |
| `ConfigReader.LinesEffect` | wpa_supplicant/config_file.c:142-169 | for any text: every field ends up with what the last line with its name says, or as it was; the block is good exactly if every line up to the closing one sets some field |
| `ConfigReader.LastDecides` | wpa_supplicant/config_file.c:142-169 | of several lines about a field the last one counts |
| `ConfigReader.NetworkFromText` | wpa_supplicant/config_file.c:94-184 | for any text: a block is accepted exactly if it is closed, every line sets a field, and WPA-PSK comes with a key; CCMP is dropped for groups exactly if pairs allow neither CCMP nor no cipher; all other fields are as their last lines say |
| `ConfigReader.AllProper` | wpa_supplicant/config_file.c:270-341 | every network read from any file holds values of its fields, has a key for WPA-PSK, and CCMP for groups only with CCMP or no cipher for pairs |
| `ConfigReader.GroupWidens` | wpa_supplicant/config_file.c:113-121 | a block with CCMP alone for groups and neither CCMP nor no cipher for pairs is read without any group cipher; saved and read again it allows TKIP and WEP |
| `ConfigStream.SkipBlanks` | wpa_supplicant/config_file.c:52-53 | number of blanks at the beginning |
| `ConfigStream.DropBlanks` | wpa_supplicant/config_file.c:74-78 | the line without blanks at the end, its first character always kept |
| `ConfigStream.GetLine` | wpa_supplicant/config_file.c:41-91 | the next line with something on it, cleaned, and the stream behind it |
| `ConfigStream.ReadNetworkBlock` | wpa_supplicant/config_file.c:127-184 | block or error and the rest of the stream as specified |
| `ConfigStream.WriteNetworkBlock` | wpa_supplicant/config_file.c:496-574 | appends exactly the specified text |
| `ConfigStream.ReadSection` | wpa_supplicant/config_file.c:289-324 | all networks in order past the global lines that are accepted, or an error if anything is wrong |
| `ConfigStream.ParseWords` | wpa_supplicant/config.c:651-700 | the set of flags of all words; an error for unknown words and for none |
| `ConfigStream.WordEnd` | wpa_supplicant/config.c:666-668 | the end of the word at a position |
| `NaiRealm.LastValueWins` | wpa_supplicant/interworking.c:203-267 | of repeated parameters of a method the last with a value counts; unknown and empty ones are ignored |
| `NaiRealm.EapRoundTrip` | wpa_supplicant/interworking.c:181-270 | an encoded EAP method, with any parameters and padding and whatever follows, is read as what it means |
| `NaiRealm.OwnOctetsIff` | wpa_supplicant/interworking.c:203-213 | what is read as a method is what its own octets say exactly when its parameters end within them or not even within the realm |
| `NaiRealm.BorrowedParameter` | wpa_supplicant/interworking.c:203-213 | a method of three octets that takes its parameter from the octets behind it |
| `NaiRealm.RealmRoundTrip` | wpa_supplicant/interworking.c:273-333 | the same for a realm with any number of methods |
| `NaiRealm.ListRoundTrip` | wpa_supplicant/interworking.c:336-372 | the same for a whole list of realms: no well-formed list is rejected by any length check |
| `NaiRealm.AnyListRoundTrip` | wpa_supplicant/interworking.c:336-372 | every list of realms with names and method counts below 256 has an encoding that the parser returns as that list |
| `NaiLayout.ListIff` | wpa_supplicant/interworking.c:336-372 | a list of realms is read exactly from the octets that are laid out as that list, so every other input is rejected |
| `NaiLayout.RealmIff` | wpa_supplicant/interworking.c:273-333 | the same for one realm and the number of octets it takes |
| `NaiLayout.EapIff` | wpa_supplicant/interworking.c:181-270 | the same for one EAP method |
| `NaiCursor.ReadParams` | wpa_supplicant/interworking.c:203-267 | the parameter loop computes the specified result from the octets between cursor and end only, all reads in bounds |
| `NaiCursor.ReadEap` | wpa_supplicant/interworking.c:181-270 | method and new cursor, from the octets between cursor and end only |
| `NaiCursor.ReadEaps` | wpa_supplicant/interworking.c:325-329 | the methods of a realm in order |
| `NaiCursor.ReadRealm` | wpa_supplicant/interworking.c:273-333 | realm and new cursor, from the octets between cursor and end only |
| `NaiCursor.ReadData` | wpa_supplicant/interworking.c:294-332 | the data field of a realm |
| `NaiCursor.ReadList` | wpa_supplicant/interworking.c:336-372 | terminates on every input with the specified list or a rejection |
| `NaiMatch.RealmMatch` | wpa_supplicant/interworking.c:375-407 | matches exactly when the home realm equals, ignoring case, one of the realms between semicolons (an empty one at the end of a list is not compared) |
| `NaiMatch.SearchList` | wpa_supplicant/interworking.c:390-402 | the loop over a list finds a match exactly when there is one |
| `NaiMatch.PartsMakeUp` | wpa_supplicant/interworking.c:388-402 | the realms that are compared make up the whole list and have no semicolon |
| `NaiMatch.SameTextIff` | wpa_supplicant/interworking.c:395-396 | texts are equal exactly if they differ in the case of letters only |
| `ServiceDiscovery.FittingFits` | wpa_supplicant/p2p_supplicant.c:1106-1233 | answers for all services are a prefix of one TLV per service in table order and fit the room; all services are there exactly when all fit |
| `ServiceDiscovery.UpnpListsAll` | wpa_supplicant/p2p_supplicant.c:1269-1311 | a UPnP answer is a prefix of status, version and the names of all matching services with commas, the whole of it exactly when it fits, with an octet to spare if an empty name comes last behind others; without a match or room for status and version it is a status code alone |
| `ServiceDiscovery.EmptyNameCut` | wpa_supplicant/p2p_supplicant.c:1284-1285 | an empty name is dropped although it would fit |
| `ServiceDiscovery.AnswerProper` | wpa_supplicant/p2p_supplicant.c:1374-1410 | every answer to one request TLV fits the room that is left and carries its transaction id, and its protocol unless all services are asked for |
| `ServiceDiscovery.BonjourAnswered` | wpa_supplicant/p2p_supplicant.c:1142-1197 | a Bonjour query is answered by status 0 with query and response of the first service with that query if they fit, status 0 without data if not, status 2 for an unknown one and status 1 without services |
| `ServiceDiscovery.UpnpAnswered` | wpa_supplicant/p2p_supplicant.c:1236-1314 | a UPnP query is answered by status 2 if no service is asked for, else by status 0, the version and the names if they fit |
| `ServiceDiscovery.NamesIff` | wpa_supplicant/p2p_supplicant.c:1276-1283 | the names are those of services of that version in which the text occurs, or of all of that version for ssdp:all |
| `ServiceDiscovery.ContainsIff` | wpa_supplicant/p2p_supplicant.c:1280-1282 | the substring search finds a text exactly if it occurs |
| `ServiceDiscovery.CStringIs` | wpa_supplicant/p2p_supplicant.c:1262-1268 | the text of a query ends at its first NUL |
| `ServiceDiscovery.AllAnswered` | wpa_supplicant/p2p_supplicant.c:1106-1233 | a request for all services gets one TLV with status 0 for each, Bonjour first, with all their data, if all fit |
| `ServiceDiscovery.OthersAnswered` | wpa_supplicant/p2p_supplicant.c:1374-1410 | a request for another protocol, or for all services without any, gets status 1 |
| `ServiceDiscovery.AnswersFit` | wpa_supplicant/p2p_supplicant.c:1350-1413 | over all request TLVs the response stays within the buffer, one part for each in order |
| `ServiceDiscovery.WalkReturns` | wpa_supplicant/p2p_supplicant.c:1458-1485 | the walker sees exactly the TLVs of an encoded response and gets to its end |
| `ServiceDiscovery.OverReadsIff` | wpa_supplicant/p2p_supplicant.c:1458-1468 | the walker reads beyond the end of a response exactly when it is a sequence of good TLVs with one more octet behind |
| `ServiceDiscovery.OverReadsSix` | wpa_supplicant/p2p_supplicant.c:1462 | a response of six octets of that kind |
| `ServiceDiscovery.BuiltNeverOverReads` | wpa_supplicant/p2p_supplicant.c:1317-1423 | no response of the builder is of that kind |
| `ServiceDiscovery.ResponseIsSound` | wpa_supplicant/p2p_supplicant.c:1317-1423 | for every service table and request the response is at most 10000 octets, is walked to its end as the TLVs that were put in, and part i carries the transaction id of request TLV i |
| `ServiceDiscovery.SilentIffMalformed` | wpa_supplicant/p2p_supplicant.c:1350-1359 | there is no response exactly when the request is whole TLVs followed by a length field that is below 2 or points beyond the end; in the long response test only the first length field counts |
| `ServiceDiscovery.RequestsIff` | wpa_supplicant/p2p_supplicant.c:1350-1413 | the request TLVs that are found are exactly those the octets are made of, up to a single octet at the end |
| `SdObjects.Wpabuf.End` | wpa_supplicant/p2p_supplicant.c:1102-1102 | fills in the length of everything behind the length field |
| `SdObjects.AddProtoNotAvail` | wpa_supplicant/p2p_supplicant.c:1087-1103 | appends the TLV if it fits |
| `SdObjects.AllBonjour` | wpa_supplicant/p2p_supplicant.c:1106-1139 | appends the fitting prefix of the Bonjour services, never more than the tailroom |
| `SdObjects.AllUpnp` | wpa_supplicant/p2p_supplicant.c:1200-1233 | appends the fitting prefix of the UPnP services, never more than the tailroom |
| `SdObjects.ReqBonjour` | wpa_supplicant/p2p_supplicant.c:1142-1197 | appends the specified answer with its length filled in |
| `SdObjects.PutNames` | wpa_supplicant/p2p_supplicant.c:1276-1302 | appends status, version and names as specified and tells whether there was a match |
| `SdObjects.ReqUpnp` | wpa_supplicant/p2p_supplicant.c:1236-1314 | appends the specified answer with its length filled in |
| `SdObjects.AnswerTlv` | wpa_supplicant/p2p_supplicant.c:1374-1410 | appends the answer for the protocol asked for |
| `SdObjects.SdRequest` | wpa_supplicant/p2p_supplicant.c:1317-1423 | the octets of the response are the encoded TLVs of the specification, or there is none |
| `SdObjects.SdResponse` | wpa_supplicant/p2p_supplicant.c:1426-1488 | walks exactly the TLVs of the specification; it reads at most one octet beyond the end, and that exactly for the responses of OverReadsIff, whatever that octet is |
| `IbssRsn.MemCmpOrder` | wpa_supplicant/ibss_rsn.c:128-129 | os_memcmp is an order: antisymmetric, and zero only for equal addresses |
| `IbssRsn.StepInv` | wpa_supplicant/ibss_rsn.c:377-596 | every start, stop, delivery (late, repeated or reordered), retransmission and forged message 1 keeps: one record per peer; keys belong to their peer's handshake; message 4 exists only after the supplicant finished; keys in the driver come from finished handshakes of the right direction |
| `IbssRsn.KeysFromHigher` | wpa_supplicant/ibss_rsn.c:110-139 | in every run every installed pairwise key of two stations comes from the handshake that the higher address initiated, and the lower end finished that handshake with the same key before the higher end used it |
| `IbssRsn.StepLower` | wpa_supplicant/ibss_rsn.c:258-290 | every step keeps: a lower end that has finished a handshake with a higher one holds a key for it; nothing removes it |
| `IbssRsn.StepLatest` | wpa_supplicant/ibss_rsn.c:110-290 | every step keeps: a key for a higher address is the latest that the supplicant finished with it, a key for a lower one the latest that the authenticator finished |
| `IbssRsn.EndsAgree` | wpa_supplicant/ibss_rsn.c:110-139 | in every run, if the higher end holds a key, so does the lower end, from a handshake of the same direction; each holds the latest it has finished, so the keys are equal exactly when those are |
| `IbssRsn.FirstKeyAgrees` | wpa_supplicant/ibss_rsn.c:110-139 | in particular both hold the same key if the lower end has finished one handshake with the higher one, whatever other stations do |
| `IbssRsn.LostMessageSplits` | wpa_supplicant/ibss_rsn.c:110-290 | a rekeying whose message 4 is lost leaves the new key with the lower end and the old one with the higher end |
| `IbssRsn.EndsMayDiffer` | wpa_supplicant/ibss_rsn.c:110-290 | a run from the start after which the two ends hold different keys |
| `IbssRsn.OppositeInstallsNothing` | wpa_supplicant/ibss_rsn.c:258-290 | with messages 3 and 4 of a handshake that the lower address initiated no station gets a key it did not have |
| `IbssRsn.OppositeChangesNothing` | wpa_supplicant/ibss_rsn.c:258-290 | at a known peer they leave all keys of all stations unchanged |
| `IbssRsn.ThirdMessageInstalls` | src/rsn_supp/wpa.c:1071-1153 | message 3 of the handshake of the higher address puts its key into the driver of the lower one and sends message 4 |
| `IbssRsn.LastMessageInstalls` | src/ap/wpa_auth.c:2002-2024 | message 4 puts the key into the driver of the higher address, after the lower one finished |
| `IbssRsn.HandshakeCompletes` | wpa_supplicant/ibss_rsn.c:377-596 | when no message is lost, starting from the higher end makes the lower end a peer by message 1, and after the four messages both ends hold the same key, for all nonces |
| `IbssHistory.RunFollows` | wpa_supplicant/ibss_rsn.c:377-596 | in every run the record of a peer is what its own history makes it: it exists exactly if there is one, its authenticator has the nonce of the latest offer and the key of the first message 2 that answers it, and its supplicant the key of the latest message 1 and the one confirmed last |
| `IbssHistory.SecondMessageIff` | src/ap/wpa_auth.c:1708-1880 | after every run message 2 is answered by message 3 exactly if it is the first that answers the latest offer of the authenticator |
| `IbssHistory.ThirdMessageIff` | src/rsn_supp/wpa.c:1071-1153 | after every run the supplicant finishes with message 3 and sends message 4 exactly if its key is the one of the latest message 1, or the one confirmed last and of the same nonce |
| `IbssHistory.FourthMessageIff` | src/ap/wpa_auth.c:2002-2024 | after every run the authenticator finishes with message 4 exactly if its key is the one it answered since the latest offer, and only once |
| `IbssRsn.FramesRouted` | wpa_supplicant/ibss_rsn.c:499-540 | a frame of the EAPOL-Key layout goes to the supplicant exactly if bit 7 of the key information is set, whatever follows it |
| `IbssRsn.RoutedIff` | wpa_supplicant/ibss_rsn.c:499-540 | exactly the frames that are short, of another type, of a wrong length or with another descriptor are discarded |
| `IbssRsn.MessagesRouted` | wpa_supplicant/ibss_rsn.c:536-538 | the frames of messages 1 and 3 go to the supplicant, those of 2 and 4 to the authenticator |
| `IbssRsn.RouteAgrees` | wpa_supplicant/ibss_rsn.c:570-596 | receiving a message in the network model has the same effect on the list of peers as routing its frame |
| `IbssObjects.IbssNode.InstallFromSupplicant` | wpa_supplicant/ibss_rsn.c:110-139 | installs the key exactly if the own address is not the higher one |
| `IbssObjects.IbssNode.InstallFromAuthenticator` | wpa_supplicant/ibss_rsn.c:258-290 | installs or removes the key exactly if the own address is not the lower one |
| `IbssObjects.IbssNode.Search` | wpa_supplicant/ibss_rsn.c:384-391 | finds the record of an address |
| `IbssObjects.IbssNode.StartPeer` | wpa_supplicant/ibss_rsn.c:377-418 | puts a new peer in front unless the address is known |
| `IbssObjects.IbssNode.StopPeers` | wpa_supplicant/ibss_rsn.c:421-458 | removes one peer or all of them |
| `IbssObjects.IbssNode.RxEapolFrame` | wpa_supplicant/ibss_rsn.c:570-596 | a frame goes to the record of its sender, to the supplicant exactly if it is a good EAPOL-Key frame with the Ack bit (RoutedIff, FramesRouted), and then an unknown sender becomes the first peer; result code 1, 0 or -1 |
| `BgscanLearn.EachLearnedOnceIff` | wpa_supplicant/bgscan_learn.c:201-238 | the frequency list names every learned frequency exactly once if and only if no BSS was learned with frequency 0 |
| `BgscanLearn.NeverEnds` | wpa_supplicant/bgscan_learn.c:249-268 | with the last probe at index 0 and every supported frequency learned, the search loop never ends |
| `BgscanLearn.Ends` | wpa_supplicant/bgscan_learn.c:249-268 | in all other cases it ends, with the next new index around the array if there is one |
| `BgscanLearn.EachProbedOnce` | wpa_supplicant/bgscan_learn.c:241-271 | with m >= 2 new indices and a fixed learned set, m scans in a row probe each of them exactly once, from any start |
| `BgscanLearn.ProbesAreNew` | wpa_supplicant/bgscan_learn.c:241-271 | and they probe nothing else |
| `BgscanLearn.ScanLists` | wpa_supplicant/bgscan_learn.c:217-271 | a scan then lists every learned frequency once and one more that is supported and not learned |
| `BgscanLearn.ScanIsLearned` | wpa_supplicant/bgscan_learn.c:477-544 | after a scan every BSS in it is known with its last frequency and all neighbours; BSSIDs stay unique, no neighbour is listed twice and no BSS as its own neighbour |
| `BgscanLearn.OthersStay` | wpa_supplicant/bgscan_learn.c:477-544 | entries of BSSs that are not in the scan stay as they are |
| `BgscanLearn.NeighborsFromScan` | wpa_supplicant/bgscan_learn.c:508-534 | whatever is new in a list of neighbours was near in the scan |
| `BgscanObjects.LearnData.GetFreqs` | wpa_supplicant/bgscan_learn.c:217-238 | the specified list |
| `BgscanObjects.LearnData.GetProbeFreq` | wpa_supplicant/bgscan_learn.c:241-271 | after any number of turns the search stands where the specification says: it has appended the next new frequency and remembered its index, given up, or still searches and has changed nothing |
| `BgscanObjects.LearnData.NotifyScan` | wpa_supplicant/bgscan_learn.c:477-544 | the table after all matching results, with the first 50 as neighbours |
| `BgscanObjects.LearnData.LearnResult` | wpa_supplicant/bgscan_learn.c:508-534 | updates or adds the entry of a result and its neighbours |
| `MichaelMic.FailureTriggersIff` | wpa_supplicant/events.c:1610-1698 | over timed runs with timers firing on schedule, a failure starts countermeasures exactly when the previous one was at most 60 seconds (of the clock) earlier; a pending report makes no difference |
| `MichaelMic.StopTimerIsArmed` | wpa_supplicant/events.c:1651-1655 | while countermeasures are on, the stop timer is set to 60 seconds after the latest trigger and has not expired; otherwise it is not set |
| `MichaelMic.PendingIsKept` | wpa_supplicant/events.c:1596-1606 | over any run until its timer fires, failures and triggers included, a pending report stays as it is, and then it is sent |
| `MichaelMic.ReportsAreCounted` | wpa_supplicant/events.c:1610-1698 | no report is lost or mixed up: for pairwise and for group keys, sent and waiting ones are one for each failure, and one more for each failure that came while a report was pending |
| `MichaelMic.PutOffIff` | wpa_supplicant/events.c:1656-1690 | a report is put off, by the time drawn, exactly if reports are delayed, the failure does not start countermeasures and is not the first with the key in use; all others go out at once |
| `MichaelMic.ReportSentTwice` | wpa_supplicant/events.c:1620-1631 | a run in which a pending report is sent at once and once more by its timer |
| `MicObjects.Supplicant.MichaelMicFailure` | wpa_supplicant/events.c:1610-1698 | new state is that of the failure transition |
| `MicObjects.Supplicant.StopCountermeasures` | wpa_supplicant/events.c:95-105 | countermeasures are off |
| `MicObjects.Supplicant.DelayedMicErrorReport` | wpa_supplicant/events.c:1596-1606 | sends the pending report, if there is one |
| `MicObjects.Supplicant.NewPairwiseKey` | wpa_supplicant/wpas_glue.c:449-453 | a new TKIP pairwise key clears the error count |

## Left out

- GAS: `gas_query_deinit`, off-channel scheduling (offchannel.c) and the time of comeback timers; a send is one step that succeeds or fails.
- ANQP: contents of requests and responses, and scan updates in the middle of a round.
- Interworking: PLMN matching, credentials, root NAI and `interworking_connect`, which depend on EAP registries.
- Network selection: IE parsing (RSN, WPA, rates) is reduced to the fields it yields; roaming and the choice to reassociate.
- BSS table: IE copies and comparison, notifications, signal fields and the IE getters; an update that reallocates always moves the entry.
- Configuration: the meaning of global parameters, blobs, FT and SHA256 key management words (config.c:620-644 writes them without checking its buffer), and PBKDF2; buffers edited in place are strings that are replaced; EAP methods are those of a build with all of them.
- ConfigFile.NetworkRoundTrip: for blocks whose lines fit the 256-octet buffer; what the reader makes of the pieces of a longer line is not modelled.
- ConfigFile.SectionRoundTrip: blobs are not modelled, and a passphrase of a saved network has no newline.
- ConfigStream.ReadSection: which global lines are good is a parameter, and a line that starts a blob is an error unless it is one of them.
- AnqpFetchObjects.Fetcher.SelectNetwork: only that a selection runs; the choice among candidates and the connection are not modelled.
- NAI Realm: a realm with a NUL octet is kept whole, while C string functions see it up to there.
- IbssRsn.KeysFromHigher: replay counters, retry limits, group keys, the PMK and the bytes of EAPOL frames beyond their routing are not part of the handshake model; frames with a right MIC come from stations of the network.
- IbssObjects.IbssNode.RxEapolFrame: initialising supplicant and authenticator succeeds.
- Background scan: the data file, scan intervals and signal changes.
- TKIP countermeasures: the pause of 10 ms before deauthentication, the driver calls and the scan that follows.
- P2P: everything but service discovery; D-Bus and control interface messages; requests handed to an external program.
- Control interface, AP mode, SME, EAPOL, EAP and driver code; logging, hexdumps and file access.
