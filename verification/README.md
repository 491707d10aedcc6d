# LitePan: verified model of its transfers, listings, recognition and caches

LitePan mounts several network drives. Its drivers upload large files in parts and resume after any
interruption, list whole accounts page by page, search directory graphs, and keep small caches; a
recognition service sends works to a language model in batches. This Dafny project models that logic and
proves what it is for. `dafny verify dfyconfig.toml` checks all of it.

## How it is organised

* **Resumable uploads.** `Parts` cuts a file and puts it back together, `Sorted` lists
  finite sets. `Resumable` is the upload as one state machine: a server store, the running client's done
  set, a saved snapshot, and steps for sending, losing a reply, learning that a part is there, saving,
  stopping, resuming, relisting, restarting and completing. Its main results are over all runs: a finished
  object is the file, and a resume skips only stored parts. `Transfer` holds the local file with its cursor
  and the server with a script of fates, one for each request. `Upload115`, `UploadBaidu`, `Upload123`,
  `UploadQuark`, `UploadGuangya` and `Upload139` are the drivers' loops, each a class whose methods are
  proved to take only steps of that machine and, from every state an earlier run can leave, to succeed when
  the server accepts as many requests as the missing parts need; `UploadOneDrive` follows the server's offset and has its own server. `PartSize` and `UploadUtil`
  are the shared arithmetic.
* **Listing and search.** `FullList115` (the pager), `DirPath115` (paths that split back), `Family189` (the
  search and the bounded cache).
* **Recognition.** `AiWorks`, `AiChunks`, `AiRecognition`, `AiResults`, `AiCache`, `AiBatch`.
* **Codecs and caches.** `Text`, `QuarkCookie`, `Base64`, `Transport139`, `ConfigCache`.

A loop of the source is a method with its loop and invariants; an object whose fields change is a class; the
theorems about whole runs are lemmas about the functions those methods are proved to compute.

## What is assumed

* The local file does not change between runs. The 115 driver compares the saved SHA-1 with itself
  (drivers/115_Open/upload.go:75), so it does not check this.
* A server holds exactly what it acknowledged or silently stored, lists exactly what it holds (any page size
  of at least one) and joins exactly what the request names. A stored part has a nonempty tag.
* What the network does is a finite script of fates chosen freely; every theorem holds for every script, and
  a request after the end of the script is refused as cancelled. A cancellation during a wait is the next
  request refused as cancelled, and a credential that needs no renewal is a renewal that succeeds.
* Opening a new 115 session and saving its identifier are one step.
* AES is a pair of functions on blocks of which only "decryption inverts encryption" is used. MD5 is an
  uninterpreted function, and the encoded length of a work is a function of the work. The fingerprint of a
  work is a hash of the configuration and the work without its id; that it never collides is assumed where a
  result says so.
* `strings.ToLower` is a function that keeps "movie" and "tv". The clock never goes back.

## What the proofs found

* The 115 completion request lists the resumed parts first and the new ones after. That is in ascending order
  if and only if the parts found on the server are a prefix (`Upload115.RequestAscendingIffPrefix`). Over every
  run they are, because a part is sent only when everything before it is stored, so the request is always
  ascending (`Upload115.Session.MultipartUpload`), whatever the requested sequential mode
  (drivers/115_Open/upload.go:1074) does.
* OneDrive has a state that no later run can leave: the server holds the whole file, but the reply with the
  item's id was lost before it could be saved. `UploadOneDrive.Session.UploadLarge` says that it then fails
  for good, and that it can succeed from every other state.
* 123 skips completed slices without moving its cursor. This is right if and only if no completed slice lies
  between two missing ones (`Upload123.SkippingIsRightIffNoHole`); every reachable state has a prefix.
* A cookie jar reads back if and only if its names and values are trimmed and free of separators
  (`QuarkCookie.ParseBuildIff`); what is read from any text is so formed.
* Forgetting an item leaves its entry in the order list, and that entry can later evict the item if it was
  remembered again, although no more ids are live than the limit (`Family189.StaleEntryEvicts`).
  `Family189.Cache.RememberItems` says exactly which ids survive, and `Family189.JustRememberedSurvivesIff` when
  the item just remembered does. Hits are always right.
* The settings writers are not serialised. Two overlapping writers of one key can leave the older value in
  the cache (`ConfigCache.OverlappingWritersGoStale`); `ConfigCache.SettlesIff` says exactly from which states the
  cache always ends as the repository.
* A model's answer may name a work of another half of the batch. A work can then be counted as failed and be
  recognised all the same (`AiBatch.FailedYetRecognised`); `AiBatch.NoFailedRecognisedIff` says exactly when
  that cannot happen.
* Unpadding does not check that its input is whole blocks, so on its own it accepts more than padding
  produces (`Transport139.UnpaddedAnyLength`); its callers check the length first.

## Model

| member | source | states |
|---|---|---|
| Resumable.JoinedIsFile | drivers/115_Open/upload.go:1258-1398 | every run of the upload system that finishes, whatever was sent, lost, retried, saved, stopped, resumed or restarted, leaves the file as the joined object |
| Resumable.RunKeepsInv | drivers/115_Open/upload.go:1276-1397 | over every run each stored part holds the file's bytes of that part, and every part the client will skip, now or after a resume, is stored under the tag it knows |
| Resumable.StepKeepsInv | drivers/115_Open/upload.go:1348-1384 | each single step keeps that invariant |
| Resumable.ResumeSkipsOnlyStored | drivers/Quark/upload.go:561-625 | from any reachable stopped state a resume skips exactly the saved parts and the server holds each of them |
| Resumable.ReachesTrans | drivers/115_Open/upload.go:56-146 | runs compose, so the chain of sessions of one upload is itself a run of the system |
| Resumable.AssembleIsFile | drivers/115_Open/upload.go:1227-1256 | parts that hold their slices, joined by number, are the start of the file they cover |
| Parts.CountCovers | drivers/115_Open/upload.go:1265-1269 | rounding the number of parts up reaches the end of the file exactly, and one part fewer does not |
| Parts.BytesOfBounds | drivers/Baidu_Open/upload.go:438-447 | the byte count of a set of parts is at most the file and equals it exactly when every part with bytes is in the set |
| Transfer.LocalFile.ReadFull | drivers/123_Open/upload.go:328-330 | io.ReadFull: the next n bytes and a cursor n further on, or nothing when fewer are left |
| Transfer.LocalFile.Deliver | drivers/Guangya/upload.go:330-340 | a limited reader delivers the bytes from the cursor on, whatever part of them the request consumed |
| Transfer.ReadPart | drivers/Quark/upload.go:265-338 | reading a part's length at the part's start gives exactly that part |
| Transfer.Remote.Put | drivers/115_Open/upload.go:1148-1187 | one request for a part: stored and acknowledged, stored with the reply lost, refused, or already there |
| Transfer.Remote.ListPage | drivers/115_Open/upload.go:1099-1146 | one page of the listing: the lowest numbers above the marker, with their tags, and whether more follow |
| Transfer.Remote.CompleteListed | drivers/115_Open/upload.go:1227-1256 | the server joins the listed parts when every tag is its own, and changes nothing otherwise |
| Transfer.Remote.CompleteAll | drivers/123_Open/upload.go:536-577 | the server joins everything it holds |
| Transfer.PutIsStep | drivers/115_Open/upload.go:1189-1211 | whatever the server does with a part not yet counted, it is a step of the upload system |
| Transfer.CompleteIsStep | drivers/115_Open/upload.go:1386-1397 | completing is a step of the system and gives the file |
| Transfer.JoinIsFile | drivers/115_Open/upload.go:1227-1256 | once every part with bytes is known to be stored, what the server joins is the file |
| Transfer.NamesMatch | drivers/115_Open/upload.go:1375-1376 | a request made of the client's done parts carries the server's own tags |
| Upload115.ListNextPage | drivers/115_Open/upload.go:1099-1143 | one page: its entries followed by what the server lists above the new marker are what it listed above the old one, and less is left whenever more follow |
| Upload115.ListUploadedParts | drivers/115_Open/upload.go:1099-1146 | paging the listing, for any page size of the server, ends and gives every stored part once, ascending, with its tag; if every request is accepted it succeeds within one request more than there are parts |
| Upload115.NextPage | drivers/115_Open/upload.go:1134-1142 | what follows a page is the listing above its last number |
| Upload115.RequestAscendingIffPrefix | drivers/115_Open/upload.go:1258-1397 | listed parts followed by the missing ones are in ascending order exactly when the listed ones are a prefix |
| Upload115.PutKeepsPrefix | drivers/115_Open/upload.go:1348-1384 | a part stored when everything before it is done keeps the stored parts a prefix, whatever becomes of the reply |
| Upload115.ProgressEnd | drivers/115_Open/upload.go:1348-1384 | after the part loop the request names every part 1..n once, and in ascending order when the listed parts were a prefix |
| Upload115.Session.Relist | drivers/115_Open/upload.go:1276-1306 | resuming takes over exactly the server's own parts and their byte count; that the recorded session is lost is only said after the server answered so; expired credentials are renewed once |
| Upload115.Session.Initiate | drivers/115_Open/upload.go:1308-1327 | a new session starts from nothing; at most four requests; it succeeds when they are accepted, also after one renewal of expired credentials |
| Upload115.Session.Open | drivers/115_Open/upload.go:1271-1338 | a session recorded for the same bucket and object is continued under its identifier with exactly the parts the server holds; a new one, with no parts, is opened only when none is recorded for them or the server answered that it is missing; the state is saved before anything is sent |
| Upload115.Session.Tally | drivers/115_Open/upload.go:1294-1297 | the listed sizes add up to the bytes of the listed parts |
| Upload115.Session.UploadPartWithRetry | drivers/115_Open/upload.go:1189-1211 | at most three tries, each from the part's start whatever the last one consumed; a part accepted among the first three, after failures worth a retry only, succeeds, and any other failure ends it at once; every outcome is a run of the system |
| Upload115.Session.SendPart | drivers/115_Open/upload.go:1361-1374 | one part, with one more round after a credential error, which succeeds when that round is accepted; a run of the system |
| Upload115.Session.SendNext | drivers/115_Open/upload.go:1361-1384 | a sent part joins the request and the count; after every fifth part and the last one the state is saved |
| Upload115.Session.SendParts | drivers/115_Open/upload.go:1340-1384 | the loop keeps the byte count, the done set and the request in step, skipping by relative seeks and sending by absolute ones; it needs two accepted requests for each part that is missing, and none for the others |
| Upload115.Session.CompleteMultipart | drivers/115_Open/upload.go:1386-1397 | joining gives the file, also after one renewal of expired credentials |
| Upload115.Session.SendAndComplete | drivers/115_Open/upload.go:1340-1397 | once a session is open: on success the object is the file and the request names 1..n once, listed parts first, ascending; no part the server holds is lost; two accepted requests for each missing part and two more are enough |
| Upload115.Session.MultipartUpload | drivers/115_Open/upload.go:1258-1398 | for every saved state and every network behaviour: a run of the system; on success the object is the file and the request names 1..n once, always in ascending order, with the server's tags; a recorded session is resumed with exactly the parts the server held, unless the server answered that it is missing; if every request is accepted it succeeds within n + 4 and two more for each part not found on the server |
| UploadBaidu.PrepareMeta | drivers/Baidu_Open/upload.go:207-272 | the block list holds the hash of each block in order, and the two other hashes cover the file and its first 256 KiB |
| UploadBaidu.CompletedBytes | drivers/Baidu_Open/upload.go:438-447 | in any order of visiting, the sum is the bytes of the completed set, and the clamp to the file size never bites |
| UploadBaidu.PartSizeIsCut | drivers/Baidu_Open/upload.go:426-436 | the length computed for a part is the distance between its two cuts |
| UploadBaidu.Session.SendChunk | drivers/Baidu_Open/upload.go:449-519 | from a cursor at the part's start, what is sent is that part's slice |
| UploadBaidu.Session.SendAndCount | drivers/Baidu_Open/upload.go:396-422 | after each part the running count is the bytes of the completed set, without the clamp; after every fifth part, and no other, the completed set is saved |
| UploadBaidu.Session.SkipOrSend | drivers/Baidu_Open/upload.go:396-422 | a finished part moves the cursor by its length, another one is sent; either way the cursor ends at the start of the next part |
| UploadBaidu.Session.SendParts | drivers/Baidu_Open/upload.go:394-423 | without an error every part is done and the cursor stands at the end of the last part; a server that takes each missing part under its expected hash never stops it |
| UploadBaidu.Session.UploadParts | drivers/Baidu_Open/upload.go:368-424 | from any completed subset: the running count is the bytes of the completed set, what is done is saved, and success means every part is done, everything is counted and the whole file was passed |
| UploadBaidu.Session.Restore | drivers/Baidu_Open/upload.go:641-667 | the saved set is reloaded whole: every saved index is a real part |
| UploadBaidu.Session.Persist | drivers/Baidu_Open/upload.go:692-725 | the completed set becomes the saved one |
| UploadBaidu.Session.UploadLocalFile | drivers/Baidu_Open/upload.go:73-170 | one driver run is a run of the system, never loses saved parts, and on success the object is the file; it succeeds when the server takes each missing part under its expected hash and then the file |
| Upload123.SkippingIsRightIffNoHole | drivers/123_Open/upload.go:299-330 | skipping without a seek reads every remaining slice from its own start if and only if no completed slice lies between two missing ones |
| Upload123.ReadRightIff | drivers/123_Open/upload.go:312-330 | one slice is read from its own start if and only if nothing was skipped between the first missing slice and it |
| Upload123.HoleExample | drivers/123_Open/upload.go:318-320 | a hole: with slice 2 of 3 done, slice 3 would be read from the start of slice 2 |
| Upload123.PrefixHasNoHole | drivers/123_Open/upload.go:299-310 | a completed prefix has no hole |
| Upload123.SentKeepsPrefix | drivers/123_Open/upload.go:340 | sending the first missing slice keeps the completed set a prefix |
| Upload123.Session.PlaceCursor | drivers/123_Open/upload.go:299-310 | the loop starts at the first missing slice with the cursor at its start |
| Upload123.Session.UploadSingleSlice | drivers/123_Open/upload.go:359-402 | no more requests than two for each try, with as many tries as servers and at least three; a slice accepted on one of them, after failures that are no cancellation and with expired logins renewed, succeeds; each outcome is a run of the system |
| Upload123.Session.TrySlice | drivers/123_Open/upload.go:376-397 | one try, and exactly when it is the last one |
| Upload123.Session.SendSlice | drivers/123_Open/upload.go:322-346 | the slice sent is the file's slice of that number, the completed set stays a prefix and is saved after every fifth slice |
| Upload123.Session.SendRest | drivers/123_Open/upload.go:312-347 | the completed set stays a prefix throughout, and without an error ends as 1..n; it needs an accepted request for each missing slice only |
| Upload123.Session.UploadFileSlices | drivers/123_Open/upload.go:256-349 | in every outcome what is completed is saved; without an error that is 1..n |
| Upload123.Session.Restore | drivers/123_Open/upload.go:636-718 | the saved slices are reloaded whole |
| Upload123.Session.Persist | drivers/123_Open/upload.go:720-755 | the completed set becomes the saved one |
| Upload123.Session.UploadLocalFile | drivers/123_Open/upload.go:48-177 | one driver run is a run of the system, keeps the saved set a prefix, never loses saved slices, and on success the object is the file; if every request is accepted it succeeds within one more than there are slices not saved |
| UploadQuark.NumberedNames | drivers/Quark/upload.go:425-433 | numbering the tag list 1, 2, 3, ... gives each done part its own tag |
| UploadQuark.NumberedIsWhole | drivers/Quark/upload.go:425-433 | the numbered list of a finished upload describes the whole file |
| UploadQuark.Session.PutPart | drivers/Quark/upload.go:342-388 | one part, or the tag the server already holds it under, which is a success |
| UploadQuark.Session.SendPart | drivers/Quark/upload.go:296-336 | a part is read at its own offset, sent, and saved |
| UploadQuark.Session.UploadParts | drivers/Quark/upload.go:265-338 | from any completed subset, gaps included, position i-1 of the result is the tag of part i, for i = 1..n; it needs two accepted requests for each missing part only |
| UploadQuark.Session.CompleteUpload | drivers/Quark/upload.go:425-473 | joining the numbered tags gives the file |
| UploadQuark.Session.Persist | drivers/Quark/upload.go:627-658 | the tags become the saved ones |
| UploadQuark.Session.UploadLocalFile | drivers/Quark/upload.go:57-201 | one driver run is a run of the system, never loses saved parts, and on success the object is the file; if every request is accepted it succeeds within 3 and two more for each part not saved |
| UploadGuangya.ListedNumbers | drivers/Guangya/upload.go:445-456 | however the map was filled, its sorted keys are 1, 2, ..., n |
| UploadGuangya.CompletedIsNamed | drivers/Guangya/upload.go:445-456 | the sorted list pairs each number with its own tag |
| UploadGuangya.CompletedIsWhole | drivers/Guangya/upload.go:344-346 | the completion list of a finished upload describes the whole file |
| UploadGuangya.DeliverPart | drivers/Guangya/upload.go:321-335 | seeking to a part's own offset delivers exactly that part |
| UploadGuangya.Session.OssUploadPart | drivers/Guangya/upload.go:321-341 | a part is sent from its own offset; every outcome is a run of the system |
| UploadGuangya.Session.SendPart | drivers/Guangya/upload.go:321-342 | a part is sent and its tag saved |
| UploadGuangya.Session.SendParts | drivers/Guangya/upload.go:317-343 | from any completed subset the loop ends with every part 1..n or stops with what it has saved; it needs one accepted request for each missing part only |
| UploadGuangya.Session.Begin | drivers/Guangya/upload.go:287-309 | with a saved session its tags are reloaded and no request is made; otherwise a session with no parts is opened and saved |
| UploadGuangya.Session.Multipart | drivers/Guangya/upload.go:287-351 | the multipart branch: success means the object is the file and the request was exactly 1..n with the server's tags |
| UploadGuangya.Session.Complete | drivers/Guangya/upload.go:344-350 | joining the known parts in ascending number gives the file, and that is saved |
| UploadGuangya.Session.Persist | drivers/Guangya/upload.go:410-443 | the tags become the saved ones |
| UploadGuangya.Session.UploadLocalFile | drivers/Guangya/upload.go:252-351 | one run, small files sent whole included, is a run of the system, never loses saved parts, and on success gives the file; if every request is accepted it succeeds within 3 and one more for each part not saved; when the parts were already joined it sends one request and no part |
| UploadOneDrive.NextOffsetReadsServer | drivers/OneDrive/upload.go:350-360 | from "next-" or "next-last" the driver reads the server's next byte exactly when it lies within the file, and fails otherwise |
| UploadOneDrive.ContentRangeReadsBack | drivers/OneDrive/upload.go:362-401 | the three numbers of a Content-Range header (section 14.4 of RFC 9110) can be read back from it |
| UploadOneDrive.HeldStaysPrefix | drivers/OneDrive/upload.go:306-317 | whatever the server does with a range of the file sent at its start, it holds a prefix of the file, and up to the range's end when it accepts it |
| UploadOneDrive.Server.Status | drivers/OneDrive/upload.go:331-348 | the session's state names the next byte the server expects |
| UploadOneDrive.Session.PutChunk | drivers/OneDrive/upload.go:362-401 | at most three tries of the same range: taken among the first three after network or busy failures it succeeds, any other refusal ends it at once; the server still holds a prefix |
| UploadOneDrive.Session.SendRange | drivers/OneDrive/upload.go:295-323 | one range continues the announced ranges where they end, and the saved offset, the cursor and the server's bytes stay together |
| UploadOneDrive.Session.SendRanges | drivers/OneDrive/upload.go:287-328 | the announced ranges are contiguous from the server's offset to the end of the file, and the server holds the file at the end |
| UploadOneDrive.Session.UploadLarge | drivers/OneDrive/upload.go:236-329 | from any saved state: success gives an item id and the server holds exactly the file, and no byte held is lost; when the server holds the whole file and no id was saved it fails for every network behaviour and stays so, and from every other state it succeeds if every request is accepted, within one more than there are ranges not yet held |
| Upload139.BuildUploadParts | drivers/139Cloud/upload.go:324-350 | the parts are numbered 1..n and cut the file at multiples of the part size; an empty file has one empty part |
| Upload139.CutsTile | drivers/139Cloud/upload.go:324-350 | they tile the file: no gap, no overlap, every byte in exactly one part |
| Upload139.PendingParts | drivers/139Cloud/upload.go:263-271 | the pending parts are exactly those not completed, ascending when the parts are |
| Upload139.UploadedBytes | drivers/139Cloud/upload.go:273-281 | the sizes of the completed parts add up to the uploaded bytes |
| Upload139.UploadedAndPendingAreTheFile | drivers/139Cloud/upload.go:263-281 | for every completed set the uploaded and the pending bytes make up the file |
| Upload139.UploadedIsBytesOf | drivers/139Cloud/upload.go:273-281 | this count is the byte count that the other drivers save |
| Upload139.MergeUploadURLs | drivers/139Cloud/upload.go:382-388 | each part's address is the last one given for it that is not blank, or the one known before |
| Upload139.MergedHas | drivers/139Cloud/upload.go:382-388 | so a part has an address afterwards exactly when it had one or was given one |
| Upload139.HasUploadURLs | drivers/139Cloud/upload.go:390-397 | true exactly when every part has a nonempty address |
| Upload139.FetchBatch | drivers/139Cloud/upload.go:157-173 | a batch is asked for exactly when one of its parts lacks an address, and the loop goes on exactly when the answer is not an error |
| Upload139.FetchURLs | drivers/139Cloud/upload.go:148-175 | at most one request for each hundred pending parts, one that ends in an error included; if each is answered in full, no pending part lacks an address |
| Upload139.Session.PutUploadPart | drivers/139Cloud/upload.go:399-422 | what is sent is the part's own section of the file |
| Upload139.Session.SendParts | drivers/139Cloud/upload.go:177-196 | the loop keeps the uploaded count equal to the completed parts, ends at the size of the file, stops at a missing address only when a pending part has none, and needs one accepted request for each missing part only |
| Upload139.Session.Begin | drivers/139Cloud/upload.go:100-146 | with a saved session its parts are reloaded and no request is made; otherwise a session with no parts is created and saved |
| Upload139.Session.FetchPending | drivers/139Cloud/upload.go:151-175 | addresses are asked for the parts not completed; answered in full, every part has one or is done |
| Upload139.Session.Complete | drivers/139Cloud/upload.go:198-206 | completing gives the file |
| Upload139.Session.Persist | drivers/139Cloud/upload.go:240-261 | the completed set becomes the saved one |
| Upload139.Session.UploadLocalFile | drivers/139Cloud/upload.go:100-209 | one run is a run of the system and never loses saved parts; success means the object is the file and the uploaded bytes are its size; it succeeds when every request is accepted and the address requests are answered in full |
| PartSize.Parts115 | drivers/115_Open/upload.go:759-783 | 115 needs at most 10000 parts if and only if the file is at most 50000 GiB |
| PartSize.TiersAreTight | drivers/115_Open/upload.go:759-783 | at the top of each tier between 128 GiB and 1 TiB the 115 part size is the least that needs at most 10000 parts |
| PartSize.Parts189 | drivers/189Cloud/upload.go:412-425 | 189 needs at most 1999 parts for every file |
| PartSize.PartsGuangya | drivers/Guangya/upload.go:787-802 | Guangya needs at most 10000 parts if and only if the file is at most 1250 GiB |
| PartSize.SizesNeverShrink | drivers/115_Open/upload.go:759-783 | a larger file never gets smaller parts, at 115, 189, Guangya and 139 |
| UploadUtil.UploadedBytesByParts | internal/driver/uploadutil/resume.go:25-44 | for any numbers, in any order: real parts count their bytes, a number below 1 a whole part, one above the last nothing, and the sum is clamped to the file size; nothing for a part size that is not positive |
| UploadUtil.ClampIsForNumbersBelowOne | internal/driver/uploadutil/resume.go:40-42 | the clamp acts only with a number below 1 in the set |
| UploadUtil.HundredMeansEverything | drivers/Baidu_Open/upload.go:701-708 | a saved state of a nonempty file reports 100 exactly when every part is in it |
| FullList115.KeptIsFirstOccurrences | drivers/115_Open/full_list.go:84-106 | what is kept is exactly the first, untrashed occurrence of each id, in page order, no id twice |
| FullList115.DeclaredIsLargest | drivers/115_Open/full_list.go:56-58 | the count compared at the end is the largest that any page declared |
| FullList115.Fetch | drivers/115_Open/full_list.go:52-58 | one request for what follows the entries taken, and the largest count declared so far |
| FullList115.FetchAgain | drivers/115_Open/full_list.go:52-82 | an empty page is asked for once more; the answer follows the entries taken |
| FullList115.TakeOne | drivers/115_Open/full_list.go:84-106 | one entry: refused without an id, passed over when seen or trashed, kept otherwise |
| FullList115.TakePage | drivers/115_Open/full_list.go:83-106 | one page adds to the kept entries what the joined pages call for, and counts its new ids |
| FullList115.Collect | drivers/115_Open/full_list.go:43-113 | the loop ends because each further round adds an unseen id; success gives the kept entries of all pages asked for, ends with two empty pages, and has at least the largest declared count of ids; it fails only when a request is not answered, an entry has no id, or a page repeats only known ids; a stable server, even one that sends an empty page once before the end, gives exactly its filtered list |
| DirPath115.AfterRootIsLast | drivers/115_Open/full_list.go:138-153 | the path starts after the last mention of the root |
| DirPath115.SegmentsPlain | drivers/115_Open/full_list.go:168-175 | no segment is empty or holds a separator |
| DirPath115.SegmentsAt | drivers/115_Open/full_list.go:140-153 | the segments are, in order, the names at exactly the positions whose id is not "0" and whose name is not blank |
| DirPath115.SegmentName | drivers/115_Open/full_list.go:168-175 | a segment is the trimmed name character by character, with "_" where it has a slash of either kind |
| DirPath115.Collect | drivers/115_Open/full_list.go:138-153 | the loop gives the segments after the last mention of the root, and whether there was one |
| DirPath115.BuildDirPath | drivers/115_Open/full_list.go:137-161 | after the last mention of the root, the names of exactly the entries whose id is not "0" and whose name is not blank, in their order, then the own name; the path splits back at "/" into exactly these; it fails exactly when the root is not mentioned |
| Family189.Cache.RememberItems | drivers/189Cloud/family.go:73-93 | afterwards every cached id is in the order list, the list is within 4096, what is cached for an id is the last item that names it or what was cached before, and an id is cached if and only if it was or is named and the entries over the limit do not mention it |
| Family189.Cache.ForgetItems | drivers/189Cloud/family.go:102-108 | exactly the ids are gone from the cache; the order list keeps them |
| Family189.Cache.CachedItem | drivers/189Cloud/family.go:95-100 | a hit is the item last remembered for the id and not forgotten since |
| Family189.LatestIsLast | drivers/189Cloud/family.go:79-87 | what the store loop leaves under an id is what the calls said last |
| Family189.LastSaidIs | drivers/189Cloud/family.go:73-108 | what the calls said last about an id is the last item with it in the last call that mentions it, or nothing when that call forgets it or none mentions it |
| Family189.StaleEntryEvicts | drivers/189Cloud/family.go:73-108 | remembering, forgetting and remembering an item again and then 4095 others leaves it uncached, although no more than 4096 ids are live |
| Family189.JustRememberedSurvivesIff | drivers/189Cloud/family.go:79-92 | an item just remembered is cached unless it was not, the order list was full and its first entry is a stale mention of the same id |
| Family189.UnmentionedSurvives | drivers/189Cloud/family.go:79-92 | an id the order list does not mention survives being remembered with at most 4096 new ids |
| Family189.ScanItems | drivers/189Cloud/family.go:124-132 | the first item with the id, or none, and the directories before it in order |
| Family189.DirsInOrder | drivers/189Cloud/family.go:124-132 | the directories queued are exactly those of the listing, in its order |
| Family189.FindFamilyItem | drivers/189Cloud/family.go:110-135 | ends on any finite graph, cycles included; lists each directory at most once, only reachable ones, and any directory only after all that are nearer to the root; what is found is the first item with the id in the last directory listed, and an error is that directory's; answers not-found only when no reachable directory holds the id; finds it if and only if one does when every listing succeeds |
| AiChunks.Split | internal/aiorganize/service.go:388-406 | chunks are nonempty, joined they are the input, each is within the limits (one item alone may be too long), and the first item of the next chunk would not have fitted |
| AiChunks.GreedyUnique | internal/aiorganize/service.go:388-406 | only one chunking has these properties, so they determine the result |
| AiChunks.BytesOfBoth | internal/aiorganize/service.go:392-402 | the size counted for joined items is the sum of their sizes |
| AiChunks.SplitWorks | internal/aiorganize/service.go:388-406 | the same for works, each counted with its sample: 10 works, 16 KiB |
| AiChunks.SplitEpisodeFiles | internal/aiorganize/service.go:430-448 | the same for files: 20 files, 16 KiB |
| AiChunks.SampleWork | internal/aiorganize/service.go:416-428 | a work with more than six files is represented by six of them, any other by all |
| AiChunks.SampleSpreads | internal/aiorganize/service.go:416-428 | the six start with the first file, end with the last, keep the order and repeat none |
| AiChunks.SampleGaps | internal/aiorganize/service.go:421-424 | neighbours among the six lie a fifth of the way apart, rounded down or up |
| AiRecognition.FailedAndAnsweredAreAll | internal/aiorganize/service.go:234-262 | for every pattern of timeouts, failures and cancellation, failed works and works of answered batches are the batch, and there is an error exactly when a work failed |
| AiRecognition.BatchesInOrder | internal/aiorganize/service.go:244-261 | answered batches are disjoint stretches from left to right, each answered by a later call, and the items are their answers joined |
| AiRecognition.CallsAreBounded | internal/aiorganize/service.go:241-251 | at most MostCalls(depth) calls, one after the other, each reported first with a nonempty stretch of the chunk and a depth of at most 2; begun after a cancellation, at most one call for each depth |
| AiRecognition.HalvedExactly | internal/aiorganize/service.go:248-262 | exactly the calls that timed out on more than one work at a depth below 2 are tried again in halves: the left half by the next call, and the right half unless the request is cancelled by then; after any other call its works are not asked about again |
| AiRecognition.FailedForAReason | internal/aiorganize/service.go:244-261 | a work counted as failed has a reason: the last call about it was refused, was for it alone, or was at depth 2, or the request was cancelled |
| AiRecognition.ErrorIsFirst | internal/aiorganize/service.go:248-261 | unless the request was cancelled, the error is that of the first call that failed and was not halved; there is none exactly when there is no such call |
| AiRecognition.AnsweredAreAsked | internal/aiorganize/service.go:244-246 | the answered batches are the stretches of the calls that were answered |
| AiRecognition.FailedAreCounted | internal/aiorganize/service.go:248-261 | the works counted as failed are exactly those that no answered call asked about |
| AiRecognition.SevenCalls | internal/aiorganize/service.go:29 | from depth 0 that is seven calls |
| AiResults.ValidateResults | internal/aiorganize/service.go:450-490 | the results come, in order, from exactly the first answers about known works; each is what its answer becomes under the hint of the last work with its id: recognised exactly when the answer is and its trimmed title has 1 to 200 characters, with trimmed texts, numbers kept when in range, and as media type the lowered one, or the hint, or "movie" |
| AiResults.Clean | internal/aiorganize/service.go:466-488 | the cleaning of one answer as just described, field by field |
| AiResults.ValidatedIsSound | internal/aiorganize/service.go:450-490 | at most one answer a work, none foreign, one for every work the model named, every one clean |
| AiResults.FirstAnswerKept | internal/aiorganize/service.go:457-465 | of several answers about a work the first is kept |
| AiResults.CleanedIff | internal/aiorganize/service.go:466-488 | cleaning yields clean answers and changes exactly the ones that are not |
| AiResults.ValidatedTwice | internal/aiorganize/service.go:450-490 | validating a second time changes nothing |
| AiCache.Cache.GetCached | internal/aiorganize/service.go:528-537 | a hit is what was last put under the key, at most a day ago; a miss drops the entry; nothing else changes |
| AiCache.Cache.PutCached | internal/aiorganize/service.go:539-556 | never more than 256 entries; below the limit nothing goes; at the limit exactly the expired entries, and one unexpired entry only when none had expired |
| AiCache.Cache.DropExpired | internal/aiorganize/service.go:543-547 | exactly the expired entries go |
| AiBatch.HitsAndMisses | internal/aiorganize/service.go:81-90 | cache hits and pending works share out the request without overlap |
| AiBatch.MissesInOrder | internal/aiorganize/service.go:81-90 | the pending works are exactly those not found, in the order of the request |
| AiBatch.RunAccounts | internal/aiorganize/service.go:102-145 | over all chunks failed and answered works are the pending works |
| AiBatch.RunItems | internal/aiorganize/service.go:128-137 | over all chunks at most one item a work and none foreign |
| AiBatch.RunErrorIsFirst | internal/aiorganize/service.go:118-123 | the error of the run is that of the first chunk that failed |
| AiBatch.RunCancelledIff | internal/aiorganize/service.go:102-117 | the run ends cancelled exactly when the request was by the time one of its calls ended; from then on a chunk takes at most three calls |
| AiBatch.FailsIff | internal/aiorganize/service.go:146-148 | the request fails exactly when nothing was cached, no answer held any item, not even one that is not kept, and some work failed; the error is that of the first chunk that failed |
| AiBatch.SortedSorts | internal/aiorganize/service.go:150-152 | sorting by position keeps the items and puts them in request order |
| AiBatch.SortedStable | internal/aiorganize/service.go:150-152 | items about the same work stay in their order |
| AiBatch.NoFailedRecognisedIff | internal/aiorganize/service.go:118-128 | no failed work is recognised if and only if no call's answer names a failed work, which it was not asked about |
| AiBatch.RecognisedAndFailed | internal/aiorganize/service.go:118-128 | then a chunk's items and failed works together are at most the chunk |
| AiBatch.FailedYetRecognised | internal/aiorganize/service.go:118-128 | an answer that names a work of the other half makes it both counted as failed and recognised |
| AiBatch.ResultIsOrdered | internal/aiorganize/service.go:66-154 | for distinct ids: at most one item a work, none foreign, strictly in request order, exactly the hits and the recognised items; cached, failed and answered works are the request |
| AiBatch.Service.LookUp | internal/aiorganize/service.go:81-90 | with a hash that never collides, an answer is found exactly when the last item stored for the same configuration and a work equal up to its id is still held and was stored within a day, and it is that item; the pending works are the others |
| AiBatch.FingerprintIff | internal/aiorganize/service.go:516-526 | works share a cache key exactly when the configuration is the same and they are equal up to their ids |
| AiBatch.FoundIsLastTold | internal/aiorganize/service.go:528-537 | so what the cache holds under a key is the last item stored for such a work |
| AiBatch.Service.StoreAll | internal/aiorganize/service.go:129-136 | every validated item is stored, in order, for a work of the chunk with its id |
| AiBatch.Service.KeepAnswers | internal/aiorganize/service.go:118-136 | one chunk's answers are cleaned, stored and counted |
| AiBatch.Service.RunAll | internal/aiorganize/service.go:102-145 | the chunks one after the other; the last report has every work completed and the failed works of the run |
| AiBatch.Service.ReportAttempts | internal/aiorganize/service.go:103-117 | one report for each call, with its batch size and depth and unchanged counts |
| AiBatch.Service.EnhanceWithProgress | internal/aiorganize/service.go:66-154 | the whole request: the greedy chunks of the cache misses are run, stored and merged; reports never go back, the first counts the cached works and the last all works and those that failed, and there is one for the start, each call and each chunk; an error exactly when a chunk failed and nothing at all was obtained |
| QuarkCookie.ParseCookie | drivers/Quark/auth.go:100-122 | the loop reads the text as the fold over its pieces |
| QuarkCookie.FirstPlaceLastValue | drivers/Quark/auth.go:103-121 | exactly the names that a piece gives, each at the place of the first piece that names it and with the value of the last; in a piece the name ends at its first "=", and both are trimmed |
| QuarkCookie.ParseIsWellFormed | drivers/Quark/auth.go:100-122 | whatever the text, names are distinct, nonempty, trimmed and without "=" or ";", values trimmed and without ";" |
| QuarkCookie.ParseBuildIff | drivers/Quark/auth.go:100-130 | printing and reading back gives the same names, values and order if and only if the jar is so formed |
| QuarkCookie.ReadPrintRead | drivers/Quark/auth.go:100-130 | for every text, reading the printed form of what was read changes nothing |
| QuarkCookie.AbsorbedReadsBack | drivers/Quark/auth.go:72-90 | after absorbing trimmed values without ";", exactly the incoming names changed, every other name, value and relative order is kept, and the header reads back as that jar |
| QuarkCookie.ChangesIff | drivers/Quark/auth.go:72-87 | absorbing counts as a change exactly when the values afterwards are others than before |
| QuarkCookie.IncomingIsLast | drivers/Quark/auth.go:62-67 | a name is taken over exactly when it is one of the two session names and some cookie gives it a value, and then with the last such value |
| QuarkCookie.Driver.Merge | drivers/Quark/auth.go:73-83 | the merge, in any order of visiting, and whether it changed anything |
| QuarkCookie.Driver.AbsorbSetCookie | drivers/Quark/auth.go:56-98 | the stored header and the flag change exactly when an incoming value is new |
| Text.SplitJoin | drivers/Quark/auth.go:103-104 | splitting undoes joining when no piece holds the separator |
| Text.JoinSplit | drivers/Quark/auth.go:103-104 | joining undoes splitting, for every text |
| Text.TrimIsIdentityIff | drivers/Quark/auth.go:104 | trimming leaves a string as it is exactly when it is trimmed |
| Text.TrimCutsSpaces | drivers/Quark/auth.go:104 | trimming cuts off spaces only, on either side |
| Text.ParsePrinted | drivers/OneDrive/upload.go:350-360 | a printed number is read back as long as it fits in 64 bits |
| Transport139.Pkcs7Pad | drivers/139Cloud/qrlogin.go:576-584 | the data followed by 1 to 16 bytes that each hold their number, whole blocks in all (section 6.3 of RFC 5652) |
| Transport139.Pkcs7Unpad | drivers/139Cloud/qrlogin.go:586-600 | the data before such bytes, or nothing when the end is not of that form |
| Transport139.UnpaddedIff | drivers/139Cloud/qrlogin.go:576-600 | of whole blocks unpadding accepts exactly the padded texts and gives their data |
| Transport139.UnpaddedAnyLength | drivers/139Cloud/qrlogin.go:586-600 | of other lengths it accepts more than padding produces |
| Transport139.CbcRoundTrip | drivers/139Cloud/qrlogin.go:505-532 | CBC decryption undoes CBC encryption for every vector and every whole number of blocks (section 6.2 of NIST SP 800-38A) |
| Transport139.CbcChains | drivers/139Cloud/qrlogin.go:505-507 | each encrypted block is the encryption of its plain block mixed with the encrypted block before it, the first one with the vector |
| Transport139.XorBitAt | drivers/139Cloud/qrlogin.go:505-507 | mixing sets a bit exactly when the two bits differ |
| Transport139.XorTwice | drivers/139Cloud/qrlogin.go:505-532 | mixing twice with the same value gives the value back |
| Transport139.EncryptTransport | drivers/139Cloud/qrlogin.go:492-509 | padding, CBC with the vector in front, base64 |
| Transport139.DecryptEncrypted | drivers/139Cloud/qrlogin.go:518-535 | decoding, splitting off the vector, CBC and unpadding give the body back |
| Transport139.DecryptAnyBlocks | drivers/139Cloud/qrlogin.go:518-542 | of any encrypted blocks decryption gives the body they are the padding of; else the part from the first opening to the last closing brace when there is one; else an error |
| Transport139.BracedIff | drivers/139Cloud/qrlogin.go:536-541 | that part is found exactly when there is one |
| Transport139.TransportRoundTrip | drivers/139Cloud/qrlogin.go:492-542 | decrypting an encrypted body gives the body, for every body, vector and invertible cipher, alone or quoted as JSON |
| Base64.DecodeEncode | drivers/139Cloud/qrlogin.go:508 | every byte string is read back from its encoding (section 4 of RFC 4648) |
| Base64.Examples | drivers/139Cloud/qrlogin.go:508 | the examples "foo", "fo" and "f" of section 10 of RFC 4648 |
| Base64.DecodedLength | drivers/139Cloud/qrlogin.go:518 | an accepted text has, without its line breaks, a multiple of four characters, and that fixes the byte count up to the padding |
| ConfigCache.StepKeepsInv | internal/adminauth/service.go:799-832 | each step of a reader or a writer keeps the copies equal to the repository except at the keys being written |
| ConfigCache.RunKeepsInv | internal/adminauth/service.go:799-832 | so does every interleaving in which no key is written again before its last write has been applied |
| ConfigCache.LoadedIsRepository | internal/adminauth/service.go:799-832 | over every such interleaving a loaded cache is the repository except at the keys being written, and the whole repository when none is |
| ConfigCache.SettlesIff | internal/adminauth/service.go:799-832 | with writers as the code has them, from any state, loaded or not: when no further write begins, every interleaving of readers and pending writes ends with a loaded cache that is the repository, if and only if the copies agree with it outside the keys in flight and each write in flight carries its value |
| ConfigCache.OverlappingWritersGoStale | internal/adminauth/service.go:822-832 | two overlapping writers of one key can leave the older value in the cache with no write in flight |
| ConfigCache.Service.ConfigValue | internal/adminauth/service.go:799-820 | loads on first use and answers from the cache; as long as the invariant holds, outside the keys being written the answer is the repository's |
| ConfigCache.Service.SetConfig | internal/adminauth/service.go:822-832 | the two halves in turn: the repository has the value, and a loaded cache has it too; nothing changes when the repository cannot be written |
| ConfigCache.Service.StoreFirst | internal/adminauth/service.go:823-825 | the repository half is a step of the state machine, and keeps the invariant unless the key is already in flight |
| ConfigCache.Service.ApplyStored | internal/adminauth/service.go:826-830 | the cache half is a step of the state machine |

## Left out

- HTTP, JSON and XML encoding, request signing, headers, progress texts and waiting times: library behaviour or I/O.
- Hash functions and AES internals: only the laws named above are used.
- Which existing file a name conflict selects, instant uploads by hash and the 115 second verification: decisions before the multipart phase, each a single branch.
- The fields of a resume state that only identify the upload (names, parents, keys): compared for equality in one place, they are the choice between resuming and restarting.
- The 189 upload loop and its fallback to a part number other than the requested one (drivers/189Cloud/upload.go:597-603): the fallback does not keep the part the client believes it sends, so the loop would need a server that answers the requested part and then adds nothing to the other drivers.
- 115 waiting for the finished file to appear in the listing, and 123 waiting for the server's check: polling.
- Renewal of an expired login inside 139 and OneDrive requests: a request that renews and repeats is one request of the script.
- Resolving episode numbers (internal/aiorganize/service.go:264-347): the same halving as the recognition, without its counts; only its chunking is modelled.
- The nested data field of the QR login (drivers/139Cloud/qrlogin.go:544-574): the repository only decrypts it, there is nothing to invert.
- Transfer.Remote.CompleteAll: Baidu's request to create the file also names the hash of every block; the modelled server does not compare them with what it holds.
- Base64 texts with unused bits set: accepted, as Go does, without a theorem about them.
- Transport139.DecryptTransport: trimming the text between braces is not modelled, because it starts and ends with a brace and cannot change.
- AiBatch.Sorted: stands for sort.SliceStable as an insertion sort; order, permutation, stability and, for distinct ids, uniqueness are stated of it.
- AiCache.Cache.PutCached: which unexpired entry goes is left open, as the order of a Go map is.
- ConfigCache.Service.ConfigValue: reading the repository is one step; the settings' default values and parsing are single branches.
- Batch rename: undoing a rename passes the new name back (internal/api/batch_rename.go:306-311, internal/api/batch_rename.go:430), so there is no round trip to prove.
- Account and settings screens, share links, mounts and web files: thin wrappers or text heuristics.
