# Verified model of the Prebid Server auction core

Prebid Server runs an OpenRTB 2.5 auction: it splits a request into one request per bidder, withholds personal data from bidders that may not see it, collects the bids of all bidders, applies competitive exclusion, picks winners, caches their payloads and writes the targeting keys an ad server reads. Around the auction it keeps stored requests in caches and user ids in a cookie. This project models the parts of it that decide what happens to bids, ids, caches and cookies, and proves what they keep, for every input, every Go map iteration order, every interleaving and every random choice.

| file | models |
|---|---|
| `Bids.dfy`, `Lists.dfy` | bids and seats as objects; list helpers |
| `PriceGranularity.dfy` | the granularity parser and price buckets |
| `CategoryRules.dfy`, `DedupeLedger.dfy`, `CategoryMapping.dfy`, `CategoryLabels.dfy` | competitive exclusion and the labels it gives |
| `Auction.dfy`, `AuctionCache.dfy`, `Targeting.dfy` | winners, cache ids, targeting keys |
| `FanIn.dfy` | the goroutine fan-out and fan-in with panic recovery |
| `StoredRequests.dfy`, `MultiFetcher.dfy` | cached and combined stored-request fetchers |
| `Cookie.dfy`, `CookieSync.dfy` | the user-sync cookie and `/cookie_sync` |
| `SplitImps.dfy`, `Scrubber.dfy`, `Privacy.dfy` | per-bidder imps and the privacy loop |
| `AdOcean.dfy` | first-fit URL packing of the AdOcean adapter |

How the source is rendered: prices, increments and coordinates are reals; a Go map range is a loop that picks any remaining key; a coin toss or random index is an arbitrary value or a parameter; clocks are parameters; JSON documents are datatypes or maps; a pointer whose identity matters is a class. Objects the source shares between requests (devices, users, seats, cache layers, URLs) are objects here too, and a `modifies` clause names everything a method may change.

What the code relies on, and the model therefore assumes:

- Bid ids are unique across the auction (removal and the category map go by id), and no bid object sits in two seats.
- Bidders of one auction have different names, their requests are different objects, and no seat object or cache layer is used twice.
- Formatted prices contain no underscore (used for the labels only).
- A cache put returns one id per payload, possibly empty.
- Sub-fetchers of a `MultiFetcher` return only what they were asked for; cache layers return and keep only what they were given.

Where a promise turned out to be false of the code, the exact condition under which it holds is proved:

- Bucketing is monotone exactly when no range starts with a bucket below one its predecessor hands out (`PriceGranularity.MonotoneIffStepwise`); the parser accepts lists that violate this (`AcceptedButNotMonotone`).
- The winner of an imp is among the per-bidder winners, and exactly one bid per imp carries the unsuffixed targeting keys, in every run exactly when every seat with a top-ranked bid on the imp has a top-ranked best bid by price; with deals not preferred that is always so (`Auction.ListedInEveryRunIff`, `SeatsAgreeWithoutDeals`, `PreferredDealMayBeUnlisted`, `Targeting.OneUnsuffixedInEveryRunIff`).
- The collected bids are independent of the interleaving exactly when no bidder panics after sending, unless all others have no bids to lose (`FanIn.ExactIffHarmless`).
- Surviving bids are always shown under different labels exactly when no bidder's name is another one's with `<duration>s_` in front of it, at its start or after an underscore, or labels lack the category or the bidder name (`CategoryLabels.ShownApartIff`, `ClashingNamesCollide`). Names such as `emx_digital` or `triplelift_native` do not clash; `5s_x` and `x` would.
- Bidder `cat_dur`, and it alone, writes an unsuffixed key with a suffixed one (`Targeting.SuffixedKeyIsPlain`); truncation to 20 characters makes two keys of one bidder collide exactly for names beginning with `cat_dur_cat_du` (`SuffixedKeysDiffer`), and only then, or for bidder `cat_dur` as winner, does a price key show the category instead (`TargetsCarryOffers`).
- The eviction loop can end if and only if there is no limit, or the uids whose remaining lifetime reaches the `MaxInt64` sentinel are absent or fit by themselves (`Cookie.CanEndIff`); then it ends in every map order (`Cookie.PbsCookie.EvictToFit`). A cookie on which it hangs is given (`Cookie.HangingCookie`). The header's size is taken to grow with the uids.
- A cookie survives being stored exactly when it is safe (`Cookie.RoundTripIffSafe`); the constructors and decoding give safe cookies and every operation keeps them safe.
- Scrubbing twice equals scrubbing once exactly when no coordinate of -0.015 or less is rounded (`Scrubber.DeviceSettlesIff`, `UserSettlesIff`).
- Reading the `aid` values back recovers which imp each slave id stands for exactly when no slave id contains a colon (`AdOcean.DecodeRecoversIff`). Such ids do not reach the adapter through the auction endpoint: the parameter schema (static/bidder-params/adocean.json:17-21) refuses them when the request is validated (endpoints/openrtb2/auction.go:1011).

Where the comments and the code disagree, the model follows the code: `dropMissingIDs` says it does not preserve the order of errors (stored_requests/multifetcher.go:98-99), but it does, and so does the model.

## Model

| member | source | states |
|---|---|---|
| `PriceGranularity.CheckRanges` | openrtb_ext/request.go:205-219 | an explicit range list is accepted iff its maxima increase from 0 and its increments are positive; otherwise the error is that of the first range at fault; an accepted list tiles the price line from 0, keeping max and increment |
| `PriceGranularity.Unmarshal` | openrtb_ext/request.go:175-224 | every document is accepted or refused as the parser does, error by error; whatever is accepted has ranges that tile the price line and a precision of 0 to 15 |
| `PriceGranularity.GetPriceBucket` | exchange/price_granularity.go:11-41 | the loop computes the bucket of the last range containing the price, the largest max above it, nothing otherwise |
| `PriceGranularity.BucketBounds` | exchange/price_granularity.go:11-41 | under an accepted list every cpm in [0, max] has a positive increment and a bucket in (cpm - increment, cpm]; above max the bucket is max; only negative prices have none |
| `PriceGranularity.BucketIsLargestMultiple` | exchange/price_granularity.go:18-41 | in every range the bucket is the largest multiple of its increment at or below the price |
| `PriceGranularity.BuiltInBuckets` | openrtb_ext/request.go:227-309 | the steps and the maximum of every built-in granularity, by name and price |
| `PriceGranularity.MonotoneIffStepwise` | exchange/price_granularity.go:11-41 | a dearer bid never gets a cheaper bucket iff no range starts below a bucket of its predecessor |
| `PriceGranularity.AlignedIsMonotone` | exchange/price_granularity.go:11-41 | ranges that start on multiples of their own increment give monotone buckets |
| `PriceGranularity.BuiltInTablesMonotone` | openrtb_ext/request.go:227-309 | every built-in table is contiguous and monotone |
| `PriceGranularity.AcceptedButNotMonotone` | openrtb_ext/request.go:205-219 | an accepted list that buckets 1.10 below 0.95 |
| `Bids.SeatBid.RemoveBidById` | exchange/exchange.go:844-860 | removes the first bid with the id and nothing else |
| `CategoryRules.RoundDurationIsLeast` | exchange/exchange.go:739-755 | a bid is too long iff it exceeds every listed duration; otherwise it is filed under the least listed duration that is long enough |
| `CategoryRules.CategoryCases` | exchange/exchange.go:707-733 | which category a bid gets, or why it has none, case by case |
| `CategoryRules.EligibleCases` | exchange/exchange.go:707-755 | a bid is eligible unless its category is missing or it is longer than every listed duration, and what it is filed under |
| `CategoryRules.LabelAndKey` | exchange/exchange.go:757-769 | label and key of a bid, spelled out for every setting |
| `CategoryLabels.LabelTellsAll` | exchange/exchange.go:757-765 | a category-duration label without bidder name determines price text, category and duration |
| `CategoryLabels.SameLabel` | exchange/exchange.go:757-769 | bids shown under one label have one key, unless labels carry category and bidder name and one name extends the other by a duration |
| `CategoryLabels.LabelsCollide` | exchange/exchange.go:757-769 | any such pair of names gives two bids with different keys the same label |
| `CategoryLabels.WhichNamesExtend` | exchange/exchange.go:767-769 | names without underscore extend nothing; `5s_x` extends `x` |
| `DedupeLedger.LedgerReject` | exchange/exchange.go:810-815 | rejecting a bid keeps the tables exact: holders, best prices, shown bids and one rejection per loser |
| `DedupeLedger.LedgerTake` | exchange/exchange.go:771-818 | a bid taking its key, displacing a holder that is at most as dear, keeps the tables exact |
| `CategoryMapping.DropFromFinishedSeat` | exchange/exchange.go:794-808 | removing a displaced bid from an already pruned seat by id, or marking its seat, leaves that seat with exactly its survivors and touches no other seat |
| `CategoryMapping.MakeRoom` | exchange/exchange.go:789-809 | whichever way the displaced bid is removed (index, id or whole seat), every finished seat still holds exactly its survivors |
| `CategoryMapping.ScanBid` | exchange/exchange.go:698-819 | one bid, for either coin, keeps tables, seats and removal list in step |
| `CategoryMapping.DropIndices` | exchange/exchange.go:826-833 | removing the sorted indices from the back leaves exactly the surviving bids in order |
| `CategoryMapping.PruneSeat` | exchange/exchange.go:821-834 | a seat all of whose bids are listed has no survivor; otherwise exactly the survivors are left |
| `CategoryMapping.ScanSeat` | exchange/exchange.go:696-836 | a whole seat, deduplicated against the earlier ones, keeps the invariant between seats |
| `CategoryMapping.ApplyCategoryMapping` | exchange/exchange.go:653-842 | for every seat order and coin sequence: each key with an eligible bid has exactly one survivor, and no eligible bid with the key is dearer than it, by price texts as parsed and by buckets where texts read back; it is shown under its own label; every seat keeps exactly its bids in the category map; every other bid is rejected once, for its own reason or as a duplicate; exactly an unknown ad server stops everything |
| `CategoryMapping.ExclusiveIsDearest` | exchange/exchange.go:771-818 | competitive exclusion in the bids' own terms: parsed price texts and price buckets |
| `CategoryMapping.LosersAreAccounted` | exchange/exchange.go:812-865 | every bid survives under its label or has exactly one rejection with its reason |
| `CategoryMapping.ConservationOfBids` | exchange/exchange.go:771-865 | survivors and rejections together are as many as the bids, and no rejected bid is in the category map |
| `CategoryMapping.PriceOfKeyIsDetermined` | exchange/exchange.go:696-839 | two runs over the same bids agree on which keys are represented and at what price, whatever the order and coins |
| `CategoryLabels.ClashingNamesCollide` | exchange/exchange.go:757-818 | for clashing names there are bids of two seats that survive every run under one label |
| `CategoryLabels.ShownApartIff` | exchange/exchange.go:653-842 | no run over any bids of the given seats shows two survivors under one label iff the seats' names do not clash |
| `Auction.NewWinnerIsHigherRank` | exchange/auction.go:139-149 | replacing a winner is a strict comparison of (has deal, price) with deals preferred, of price otherwise |
| `Auction.NewAuction` | exchange/auction.go:107-136 | for every seat order and every bid of every seat: its imp has a winner it does not beat, by price or by deal and price, and its bidder an entry there that is no cheaper; winners and entries are bids of the seats on their own imps; winners are the first of their rank in a seat and entries the first dearest bid; without preferred deals the winner is one of the entries |
| `Auction.DecidedStep` | exchange/auction.go:113-128 | one more bid keeps the tables decided: winners unbeaten and first of their rank in a seat, every bidder's entry its first dearest bid |
| `Auction.VisitDecided` | exchange/auction.go:111-130 | after any seats in any order the tables are decided for those seats |
| `Auction.BestOfIsFirst` | exchange/auction.go:119-123 | of a bidder's equally dear bids the earliest is kept |
| `Auction.WinnerListedOnce` | exchange/auction.go:107-149 | without preferred deals the winner of an imp is the same object as exactly one bidder's entry |
| `Auction.ListedIffBestIsTop` | exchange/auction.go:107-149 | under either setting the winner is listed iff no bid on the imp beats the best bid by price of the winner's seat |
| `Auction.FirstSeatWins` | exchange/auction.go:111-118 | any seat with a top-ranked bid on an imp wins it in some run |
| `Auction.ListedInEveryRunIff` | exchange/auction.go:107-149 | the winner is listed in every run iff every seat with a top-ranked bid on the imp has a top-ranked best bid |
| `Auction.SeatsAgreeWithoutDeals` | exchange/auction.go:139-149 | with deals not preferred that condition always holds |
| `Auction.PreferredDealMayBeUnlisted` | exchange/auction.go:121-123 | a seat with a dearer bid without deal wins with its deal bid, which no table lists |
| `Auction.TopsAreDistinct` | exchange/auction.go:107-136 | no bid object is the best of two bidders or on two imps |
| `Auction.OutcomeIndependentOfOrder` | exchange/auction.go:107-149 | two runs agree on the bidder table, the imps, and every winner's rank |
| `Auction.RoundPrices` | exchange/auction.go:151-159 | exactly the bidders' best bids get a price text, each that of its own bucket |
| `AuctionCache.CacheTtl` | exchange/auction.go:321-345 | the shorter of the two requested lifetimes plus buffer, the default only if neither is positive, 0 without buffer if nothing is positive |
| `AuctionCache.AddPayloads` | exchange/auction.go:207-248 | a bid's payloads are appended with their positions recorded in the right index table |
| `AuctionCache.BuildPayloads` | exchange/auction.go:189-250 | in every map order, the two index tables partition the positions, every wanted payload is there once and every payload is its own slot's |
| `AuctionCache.BuildList` | exchange/auction.go:189-263 | the debug log can only be the last position, after at least one payload |
| `AuctionCache.OneSlotPerBid` | exchange/auction.go:189-250 | no two positions of one kind are for the same bid |
| `AuctionCache.AssignIds` | exchange/auction.go:270-290 | every bid gets the id at its own position, and no other bid gets any |
| `AuctionCache.CustomKeyIsStripped` | exchange/auction.go:196-206 | under competitive exclusion a custom cache key that comes back as the id yields the shared id |
| `AuctionCache.CachedAuction.DoCache` | exchange/auction.go:161-292 | exactly the payloads asked for are sent; each bid ends up with the id returned at the position of its own payload; a video bid gets that id as it is, or, where bids are filed by category and the id ends in the shared id, the shared id; the log's id goes to no bid |
| `AuctionCache.PayloadInPlainTerms` | exchange/auction.go:196-305 | type, data, lifetime and custom key of every payload in terms of bid, request and configuration |
| `AuctionCache.DecidedCanBeCached` | exchange/auction.go:107-136 | every decided auction meets what caching assumes |
| `Targeting.BidTargets` | exchange/targeting.go:44-79 | the sequence of conditional writes leaves the keys that its offers spell |
| `Targeting.TargetImp` | exchange/targeting.go:39-81 | every bidder's best bid on an imp gets its own targets |
| `Targeting.SetTargeting` | exchange/targeting.go:38-83 | every bidder's best bid gets its targets, in every map order, and no other bid is touched; the winner's plain keys and the suffixed keys hold the price, ids, size, format, host, deal and category of the bid, key by key |
| `Targeting.SuffixedKeyIsPlain` | openrtb_ext/bid.go:146-152 | a suffixed key is a plain key only for bidder `cat_dur` and the price key |
| `Targeting.PlainKeysWritten` | exchange/targeting.go:85-92 | exactly which unsuffixed keys a sequence of writes leaves |
| `Targeting.OneBidPerImpIsUnsuffixed` | exchange/targeting.go:38-92 | with winners included, the winner and no other bid carries the unsuffixed keys, apart from the leak of bidder `cat_dur`; exactly one bid per imp does iff the winner's seat has a top-ranked best bid, whether deals are preferred or not |
| `Targeting.OneUnsuffixedInEveryRunIff` | exchange/targeting.go:38-92 | one bid on the imp carries them in every run iff every seat with a top-ranked bid has a top-ranked best bid; with deals not preferred always |
| `Targeting.SuffixedKeysDiffer` | openrtb_ext/bid.go:146-152 | two suffixed keys of one bidder are equal iff they are the price and category keys and the name begins with `cat_dur_cat_du` |
| `Targeting.ValuesWritten` | exchange/targeting.go:85-92 | what every suffixed and plain key holds after any number of writes: its own value, or the category if the bidder's price key is hit |
| `Targeting.TargetsCarryOffers` | exchange/targeting.go:44-79 | every fact about a bid can be read back under its suffixed key, and under the plain key on the winner; the price key alone shows the category instead, for names that double it or for the winner `cat_dur`, if a category is written |
| `FanIn.Collect` | exchange/exchange.go:501-514 | the receive loop computes the collection of its messages |
| `FanIn.InvStep` | exchange/exchange.go:421-552 | every send, panic, recovery and receive keeps: no message lost, duplicated or made up, and the tables are those of the received messages |
| `FanIn.InvReachable` | exchange/exchange.go:421-552 | the invariant holds after every schedule |
| `FanIn.SchedulesAreBounded` | exchange/exchange.go:421-552 | no schedule has more than four steps per bidder, and messages sent equal those received plus those waiting |
| `FanIn.NoSenderBlocks` | exchange/exchange.go:434-498 | if nobody panics after sending, whoever wants to send finds room |
| `FanIn.NoDeadlock` | exchange/exchange.go:421-552 | until everybody is done and the collector has its messages some step can be taken, even with late panics |
| `FanIn.NobodyLeftOut` | exchange/exchange.go:501-514 | when the collector has its messages, a bidder's result is among them unless another bidder panicked after sending |
| `FanIn.ExtraIsKept` | exchange/exchange.go:508-509 | a bidder's metadata arrives with its result even without bids |
| `FanIn.ExactWhenHarmless` | exchange/exchange.go:421-516 | in every interleaving the final map is exactly the bids of the bidders that returned some, and `bidsFound` is true iff it is not empty |
| `FanIn.CollectedInPlainTerms` | exchange/exchange.go:421-516 | if nobody panics after sending, every run's map holds exactly the bidders that returned bids, with those bids, and bids are found iff somebody returned some |
| `FanIn.ExactIffHarmless` | exchange/exchange.go:518-552 | that holds in every run iff no late panic can take the place of a bidder with bids |
| `StoredRequests.UpdateFromCache` | stored_requests/fetcher.go:114-130 | merges what was found of the ids, whatever else the layer returned, and returns the rest in order |
| `StoredRequests.ComposedCache.Get` | stored_requests/fetcher.go:96-112 | the first layer that answers for an id wins; asking stops early only when nothing is missing; a reliable layer that was asked is not missed |
| `StoredRequests.ComposedCache.Save` | stored_requests/fetcher.go:140-144 | every layer is given the data |
| `StoredRequests.ComposedCache.Invalidate` | stored_requests/fetcher.go:133-137 | no layer keeps an invalidated id |
| `StoredRequests.FindLeftovers` | stored_requests/fetcher.go:214-222 | the ids not found, in order; it panics iff there is more data than ids, which data at the ids alone cannot cause |
| `StoredRequests.MergeData` | stored_requests/fetcher.go:224-235 | the union, fetched data winning |
| `StoredRequests.AnswerInTwoParts` | stored_requests/fetcher.go:164-192 | cached data and the backing answer to the leftovers make up the backing answer to everything, errors included |
| `StoredRequests.AnswerInPlainTerms` | stored_requests/fetcher.go:15-26 | an answer id by id, and its errors counted |
| `StoredRequests.LastEditCounts` | stored_requests/events/events.go:72-75 | an edited id has what its last edit says |
| `StoredRequests.FetcherWithCache.FetchRequests` | stored_requests/fetcher.go:164-192 | with coherent caches and a healthy backing fetcher the reply is the one it would have given itself, the caches stay coherent, and what no layer held is afterwards held by every reliable one; with a failing one the data is still right where present |
| `StoredRequests.InvalidatedIsTrue` | stored_requests/fetcher.go:133-137 | dropping the edited ids makes a cache coherent with the edited data |
| `StoredRequests.Perform` | stored_requests/events/events.go:62-84 | a fetch, an edit with its invalidation, or a save event keeps the caches coherent, whether the backing fetcher is healthy or not |
| `StoredRequests.Run` | stored_requests/fetcher.go:96-235 | in every run of fetches, edits and saves with any health of the backing fetcher, every reply holds only what is stored at the ids asked for; every fetch while it is healthy is answered as if there were no cache: the stored value for each id, and one not-found error for every time a missing id was asked for |
| `MultiFetcher.DropMissingIds` | stored_requests/multifetcher.go:100-109 | the in-place compaction keeps every error of another kind as often as it was given, in order, and no not-found error |
| `MultiFetcher.FilterIds` | stored_requests/multifetcher.go:75-87 | the ids not found yet, in order |
| `MultiFetcher.AppendNotFoundErrors` | stored_requests/multifetcher.go:89-96 | one error per occurrence of an id found nowhere |
| `MultiFetcher.FetchRequests` | stored_requests/multifetcher.go:13-37 | every fetcher is asked for what its predecessors lacked; the data is the first-wins union; each error of another kind occurs as often as in all replies together, and there is one not-found error for every time an id found nowhere was asked for |
| `MultiFetcher.FirstReplyWins` | stored_requests/multifetcher.go:18-32 | the data for an id is that of the first reply that has any |
| `MultiFetcher.StoresActAsOne` | stored_requests/multifetcher.go:13-37 | over complete stores the reply is that of one store in which earlier stores shadow later ones |
| `Cookie.DecodeIsSafe` | usersync/cookie.go:299-338 | a decoded cookie holds no uids if opted out, and never the placeholder uid |
| `Cookie.DecodeInPlainTerms` | usersync/cookie.go:299-338 | what a contract reads as, uid by uid |
| `Cookie.EncodeInPlainTerms` | usersync/cookie.go:276-289 | what is written of a cookie, field by field |
| `Cookie.RoundTrip` | usersync/cookie.go:276-338 | decoding the encoding of a safe cookie gives it back, at any time |
| `Cookie.RoundTripIffSafe` | usersync/cookie.go:276-338 | only safe cookies survive |
| `Cookie.DecodeEncodeDecode` | usersync/cookie.go:276-338 | storing a decoded cookie and reading it again changes nothing, for every contract, legacy and empty forms included |
| `Cookie.AddLegacy` | usersync/cookie.go:317-324 | legacy uids are merged as already expired and yield to current ones, in every map order |
| `Cookie.FindOldest` | usersync/cookie.go:188-196 | the search ends with a uid that expires first, or with none if every lifetime reaches the sentinel |
| `Cookie.EvictingStep` | usersync/cookie.go:186-203 | one eviction keeps: each was called for, none spared expires earlier than one evicted |
| `Cookie.StuckIsImmortal` | usersync/cookie.go:188-197 | a search that finds nothing to remove leaves exactly the uids at the sentinel |
| `Cookie.CanEndIff` | usersync/cookie.go:186-203 | some run of the loop ends iff there is no limit, or the uids at the sentinel are absent or fit by themselves |
| `Cookie.HangingCookie` | usersync/cookie.go:186-203 | one uid at the sentinel hangs the loop under any positive limit the cookie exceeds |
| `Cookie.PbsCookie.EvictToFit` | usersync/cookie.go:186-203 | the loop ends with the cookie within the limit or empty, evicts only while it is too big, removes the evicted uids and nothing else, and every evicted uid expires no later than every kept one, as far as the saturating clock can tell |
| `Cookie.PbsCookie.constructor` | usersync/cookie.go:96-101 | an empty cookie born now |
| `Cookie.PbsCookie.WithOptOut` | usersync/cookie.go:104-110 | an empty cookie that is opted out |
| `Cookie.PbsCookie.SetPreference` | usersync/cookie.go:118-125 | opting out forgets all uids |
| `Cookie.PbsCookie.TrySync` | usersync/cookie.go:253-270 | a sync is refused after an opt-out and for audienceNetwork's uid 0, and otherwise sets this family's uid for 14 days and no other |
| `Cookie.PbsCookie.Unsync` | usersync/cookie.go:228-230 | forgets one family |
| `Cookie.PbsCookie.GetUid` | usersync/cookie.go:146-153 | the uid, whether there is one, whether it is live |
| `Cookie.PbsCookie.LiveSyncCount` | usersync/cookie.go:239-250 | counts the families with a live uid |
| `Cookie.PbsCookie.Unmarshal` | usersync/cookie.go:299-338 | reads a contract as the decoder specifies; a document that does not parse changes nothing |
| `Cookie.SafeForever` | usersync/cookie.go:96-125 | safety holds in every state of every run |
| `Cookie.Provenance` | usersync/cookie.go:228-270 | every uid in a run was there at its start or was put there by an accepted sync, with no opt-out since |
| `Cookie.NothingReappears` | usersync/cookie.go:118-125 | after an opt-out a uid is in the cookie only through a later accepted sync |
| `Cookie.ParseFromRequest` | usersync/cookie.go:54-93 | the cookie read from a request is safe, and the host cookie fills in a missing or empty uid only |
| `CookieSync.CookieSyncRequest.DeleteWhile` | endpoints/cookie_sync.go:236-244 | deleting while iterating with index adjustment is an order-preserving filter |
| `CookieSync.CookieSyncRequest.FilterExistingSyncs` | endpoints/cookie_sync.go:236-244 | a bidder stays, in order and as often as before, iff it has a syncer and, unless a same-site sync is needed, no uid of its family is live |
| `CookieSync.CookieSyncRequest.FilterForGdpr` | endpoints/cookie_sync.go:246-263 | all, none or the permitted bidders |
| `CookieSync.CookieSyncRequest.FilterForCcpa` | endpoints/cookie_sync.go:265-277 | drops the bidders a parsed policy blocks |
| `CookieSync.CookieSyncRequest.FilterToLimit` | endpoints/cookie_sync.go:280-299 | cuts to the limit by the drawn indices, or leaves the list alone |
| `CookieSync.DrawInPlace` | endpoints/cookie_sync.go:289-297 | the loop over cells computes the draw |
| `CookieSync.DrawIsSubset` | endpoints/cookie_sync.go:280-299 | for every random choice the result is a sub-multiset of the list |
| `CookieSync.EverySubsetCanBeDrawn` | endpoints/cookie_sync.go:280-299 | every sub-multiset of the right size is drawn by some choices |
| `SplitImps.CreateSanitizedImpExt` | exchange/utils.go:399-424 | the shared fields and `prebid` without its `bidder` part, if anything is left of it |
| `SplitImps.ExtractBidderExts` | exchange/utils.go:426-446 | parameters under `prebid.bidder` first, then those beside `prebid`, special fields excepted, in every map order |
| `SplitImps.ServeBidders` | exchange/utils.go:379-393 | although one map is reused for all bidders of an imp, each gets one copy with its own parameters |
| `SplitImps.SplitAll` | exchange/utils.go:355-397 | every bidder gets, in order and once each, copies of precisely the imps that name it; in each the bidder's own parameters, `data`, `context` and `skadn` as in the imp, and `prebid` as in the imp but for `bidder`, if anything is left; an `ext` that is no object or null fails at the first such imp |
| `SplitImps.OthersDoNotMatter` | exchange/utils.go:355-453 | changing only other bidders' parameters, in any imps, leaves a bidder's imps unchanged |
| `SplitImps.CopyHidesOthers` | exchange/utils.go:379-424 | a copy holds the shared fields and the bidder's own parameters only |
| `SplitImps.CopyInPlainTerms` | exchange/utils.go:381-453 | a bidder's copy of an imp, field by field |
| `SplitImps.PreferredParams` | exchange/utils.go:426-453 | which parameters a bidder is given, case by case |
| `Scrubber.IPv4Reveals` | privacy/scrubber.go:157-164 | two scrubbed addresses are equal iff the originals agree up to the last dot |
| `Scrubber.IPv6Reveals` | privacy/scrubber.go:176-195 | two scrubbed addresses are equal iff the originals agree before their last two segments |
| `Scrubber.IPv6RevealsMore` | privacy/scrubber.go:166-174 | two addresses without their last 16 bits are equal iff the originals agree before their last segment |
| `Scrubber.AddressForms` | privacy/scrubber.go:157-195 | only the low part of an address is replaced, by zeros |
| `Scrubber.ExtReveals` | privacy/scrubber.go:216-240 | two scrubbed user exts are equal iff they agree outside `eids` and `digitrust` |
| `Scrubber.ScrubUserExtIds` | privacy/scrubber.go:216-240 | removes both keys if either is there, and leaves unreadable exts alone |
| `Scrubber.ScrubDevice` | privacy/scrubber.go:87-125 | a fresh copy with each field as its strategy says; nil for nil; the given device is unchanged |
| `Scrubber.ScrubUser` | privacy/scrubber.go:127-155 | the same for users |
| `Scrubber.RoundSettlesIff` | privacy/scrubber.go:205-214 | rounding a rounded coordinate changes it iff it is -0.015 or less |
| `Scrubber.RoundIsNear` | privacy/scrubber.go:205-214 | a rounded coordinate is within 0.005, except that coordinates below -0.005 go up by 0.005 to 0.015 |
| `Scrubber.AreaReveals` | privacy/scrubber.go:205-214 | two rounded positions are equal iff they agree to the hundredth and outside the coordinates |
| `Scrubber.DeviceSettlesIff` | privacy/scrubber.go:87-125 | scrubbing twice equals scrubbing once iff no such coordinate is rounded |
| `Scrubber.UserSettlesIff` | privacy/scrubber.go:127-155 | the same for users |
| `Privacy.MorePoliciesTellNoMore` | privacy/enforcement.go:31-85 | enforcing more policies never lets a bidder tell apart what it could not tell apart before |
| `Privacy.NoPolicyNoChange` | privacy/enforcement.go:15-29 | without any policy nothing would be withheld, so skipping the scrubber is right |
| `Privacy.CoppaDevice` | privacy/enforcement.go:31-69 | under COPPA two devices look the same iff they differ in ids, position and low address parts only |
| `Privacy.CoppaUser` | privacy/enforcement.go:59-85 | under COPPA two users look the same iff they differ in ids, eids, digitrust, year of birth, gender and position only |
| `Privacy.RestrictedReveals` | privacy/enforcement.go:31-85 | under CCPA, LMT or both GDPR restrictions (no COPPA) exactly ids, the last address part and exact coordinates are hidden |
| `Privacy.GeoRestrictionReveals` | privacy/enforcement.go:31-85 | with only the GDPR geo restriction exactly the last address part and exact coordinates are hidden |
| `Privacy.IdRestrictionReveals` | privacy/enforcement.go:31-85 | with only the GDPR id restriction exactly the ids are hidden |
| `Privacy.Apply` | privacy/enforcement.go:24-29 | the request shows its device and user as the flags demand, through fresh objects |
| `Privacy.SetFlags` | exchange/utils.go:124-155 | whatever the previous bidder left in the reused flags, this bidder's flags and permission come out as if it were alone |
| `Privacy.CleanRequests` | exchange/utils.go:121-161 | without GDPR everybody is let through, with it exactly the bidders about whom the answer is to bid, in order; an allowed bidder's request shows no ids if a policy, a failed or a refusing answer hides them, coarse addresses and positions likewise, and otherwise what it was; a refused bidder's request is untouched and no device or user object is changed |
| `Privacy.DueInPlainTerms` | privacy/enforcement.go:24-85 | what an allowed bidder sees of device and user, field by field, from the policies and the answer about it |
| `Privacy.CoppaHidesPersonalData` | exchange/utils.go:121-161 | under COPPA an allowed bidder gets equal device and user from two requests iff these differ in personal data only |
| `AdOcean.SetSlaveSizesParam` | adapters/adocean/adocean.go:302-326 | the sizes are listed in some order of the slave ids; with none to show the parameter stays as it was |
| `AdOcean.RenderedLength` | adapters/adocean/adocean.go:302-326 | the escaped length of the sizes parameter does not depend on the order |
| `AdOcean.SizesReadBack` | adapters/adocean/adocean.go:313-325 | split at dashes and tildes, the sizes parameter gives one value per slave with sizes, with its raw id and sizes |
| `AdOcean.JoinSplitsIff` | adapters/adocean/adocean.go:323-325 | splitting at dashes gives the values back iff no value has a dash in it |
| `AdOcean.RawIdCuts` | adapters/adocean/adocean.go:319-320 | the raw id is what follows a leading "adocean"; in general one occurrence of it is cut out, or nothing |
| `AdOcean.SameLength` | adapters/adocean/adocean.go:179-182 | the URL's length is a function of the slots in it |
| `AdOcean.SizesOfKeys` | adapters/adocean/adocean.go:56-60 | the keys of the size table are the slave ids of the request |
| `AdOcean.RequestData.TryAdd` | adapters/adocean/adocean.go:165-187 | a slot is added iff master, slave and length allow it; otherwise the size table is rolled back and the request is as before |
| `AdOcean.AddToExistingRequest` | adapters/adocean/adocean.go:162-190 | the slot goes to the first request that takes it and changes no other |
| `AdOcean.AddNewBid` | adapters/adocean/adocean.go:120-160 | an imp joins the first request that takes it, opens a new one, or is refused without any change |
| `AdOcean.MakeRequests` | adapters/adocean/adocean.go:83-118 | the objects built in place hold exactly the first-fit packing of the imps, whatever the map order, with one error per refused imp, or one if there are no imps; the text of every URL with two or more slots is under 8000 characters |
| `AdOcean.AlwaysWellPacked` | adapters/adocean/adocean.go:120-190 | in every run slave ids within a request differ, requests with two or more slots are under 8000 characters, and no slot would still fit into an earlier request |
| `AdOcean.FirstFitInPlainTerms` | adapters/adocean/adocean.go:165-187 | every slot is in the first request of its master that has not its slave id and stays under 8000 characters with it |
| `AdOcean.RefusedInPlainTerms` | adapters/adocean/adocean.go:126-153 | an imp is refused iff its parameters are bad, or no URL can be made for it and no request can hold it |
| `AdOcean.EveryImpPlacedOnce` | adapters/adocean/adocean.go:83-160 | every accepted imp is in exactly one request, once, under its own master; accepted imps and errors add up to all imps |
| `AdOcean.DecodeAid` | adapters/adocean/adocean.go:348-353 | each value is split at its first colon |
| `AdOcean.DecodeRecoversIff` | adapters/adocean/adocean.go:337-353 | the decoded map gives every slave id its imp iff no slave id contains a colon |

## Left out

- HTTP, contexts and deadlines, tracing, metrics and logging, configuration, and everything that only moves data through them.
- JSON, base64, XML and URL encoders, `FormatFloat` and `ParseFloat`: documents are datatypes, price texts go through arbitrary formatting functions, and bucket claims stop at the unformatted number. float64 rounding is not modelled.
- GDPR consent strings and vendor lists, CCPA and LMT parsing: their decisions are arbitrary functions of the bidder.
- `prepareSource`, `prepareUser`, `removeUnpermissionedEids` and aliases (exchange/utils.go:206-309 and 460-600): request preparation around the modelled loop.
- FetchAccount and FetchCategories of both fetchers: simpler cases of what is modelled.
- The legacy `/auction` endpoint, all other adapters, and the parts of AdOcean that fill in URL parameters, headers, sizes and ad code from the request (`makeURL`, `formHeaders`, `getImpSizes`, `prepareAdCodeForBid`): straight-line building.
- CategoryMapping.ApplyCategoryMapping: rejection texts are a datatype instead of strings; the list of seats to clear is a set; sorting the request's duration list in place and the sharing of backing arrays between slices are not modelled.
- AuctionCache.CachedAuction.DoCache: the returned error list and 64-bit overflow of lifetimes are not modelled; the debug log entry is given ready-made.
- FanIn.Collect: goroutines that never return are not modelled; a bidder either sends once, or panics before or after sending.
- StoredRequests.Run: fetches and events are atomic steps; a fetch that overlaps an invalidation can save stale data and is not covered.
- Cookie.PbsCookie.EvictToFit: the clock stands still during the loop, and the header's size is an arbitrary function of the cookie.
- CookieSync.CookieSyncRequest.FilterToLimit: which sets can be drawn is proved, their probabilities are not.
- Scrubber.ScrubUser: exts are compared as JSON objects, not as bytes; re-serialized text may differ in spacing and key order.
- AdOcean.SetSlaveSizesParam: that a test request lists the sizes in sorted order is not stated; every order is covered.
