# esp-nvs storage engine: a verified model

esp-nvs keeps typed values under (namespace, key) on NOR flash. Programming can only clear bits, erasing works
on whole sectors of 4096 bytes, and the power can go between any two flash operations. The engine answers with
a log of items per page, an entry map of two bits per entry, a reserve page that a defragmentation copies into,
two-version blobs split into chunks, and a boot scan that repairs what a power cut left behind.

This project models that engine in Dafny and proves what it is for: **a value is there as a whole or not at
all, whenever the power goes, and nothing else is affected.** The proofs are for all inputs, all flash contents
the theorem is about, all hash functions and all points a cut can fall on.

## How the model is built

Bottom up, one module per part of the engine:

- `Crc`, `Layout`, `MemFlashModule`, `EntryMap`, `Image`: bits and bytes. The CRC, the 32 bytes of an entry, the
  flash that ANDs on write, the two-bit entry states, and a sector as its 4096 bytes. They show that the sector
  model used above them is what the bytes do, and that the codec it asks for exists (`Layout.LayoutOk`).
  `Checksums` says which torn writes that codec's data CRC always tells apart.
- `Polynomial`, `OnFlash`: the same from outside. The CRC as the remainder of a long division by the polynomial of
  section 8 of RFC 1952, and every field, code and size on flash in offsets and numbers, about the decoders alone.
- `Sectors`, `Flash`, `Pages`, `PageOps`, `Scan`: a sector is a header, 126 entry states and the entry bytes.
  `Sectors.ScanFrom` defines, without touching anything, which items a scan keeps; everything is stated against
  it. Every write or erase is one step against a budget; past the budget every step fails and changes nothing,
  as the repository's own fault injection does; without a budget the power lasts, and no call ends in a flash
  error. `Scan.LoadSector` is the repairing scan, on any contents.
- `Store`, `Instance`: `View` is what the sectors say. `Bag(View, k)` is the multiset of live items of a key.
  `Reads` says which value a bag stands for, `Wins` which value the boot cleanup will make of it, and
  `Recovers(hal, kv)`, the crash invariant, that the flash stands for the contents kv whatever state a cut left
  it in: an item written twice, a blob half written, a page half copied. `Contents` maps (namespace index, key)
  to a value; the entries that give names their index are keys of namespace 0, so losing one is visible.
- `NvsModule.Nvs`: the instance, a class with the source's fields, its methods in the source's order and with
  the source's branches, each proved against the functions and predicates above. `Lookup`, `Transfer`,
  `Compaction`, `Stale`, `Changes`, `Names`, `Setting`, `BlobReads`, `BlobWrites`, `Winners`, `Observations`,
  `Cleanup`, `Duplicates`, `Survivors`, `Recovery`, `Boot` hold the lemmas each of them needs, roughly one module per
  source function family.
- `Runs`: whole runs. `Runs.ServeRounds`, any number of rounds of commands, cuts and cut boots, is the theorem the
  rest builds up to. It has two halves: whenever the power goes, nothing confirmed is lost and nothing else changes;
  and where the power lasts, every command is answered as it deserves, a boot gets through, and with pages and
  indices in reserve every well-formed command is confirmed. `Runs.ServeRoundsAndGet` ends such a run with a getter:
  it gives the bytes that were set last.
- `Conditions`: flash on which the code goes wrong where it needs more than it says; the exact conditions are
  where the code is.

The boot has two contracts in one. From flash a power cut left behind (`Recovers`) it brings the contents back.
From any other flash, with damaged data, repeated chunks, several indices of a version, several pages marked
Freeing or several active ones, it ends with pages and reserve in order and one head per key, and says which. A
ghost parameter `tame` tells the two apart inside the methods. What any flash has to meet is `Recovery.FlashFit`
and `Instance.SequencesDiffer`: pages have different sequence numbers, only chunks carry a chunk index, namespace
entries and blob indices are single entries, and the repairs of the scan last. What goes wrong without the last two
is below; without the first, no page is the newer of two.

## What the code needs and does not say

Each of these is a condition the proofs found necessary. None is papered over by a precondition alone.

- **Namespace entries on a page of nothing else.** `newest_page_holds_all_items_of` looks at hashed items only,
  and namespace entries are not hashed. If a defragmentation is cut short after marking such a page Freeing and
  before a copy exists, and a newer page exists, the next boot erases the page and its names are gone.
  `NvsModule.Nvs.LoadSectors` states it exactly: the contents after boot equal those before if and only if
  `Recovery.LosesNames` does not hold, and in every case the keys of all namespace indices are kept.
- **A lost name's index is given away.** The next new namespace gets that index and inherits the keys left
  behind, and `set_str` and `set_blob` do not look for a key of a namespace they have just created.
  The comment in `get_or_create_namespace` says gaps are not filled so that this cannot happen; that
  holds for every index but the largest. `NvsModule.Nvs.SetStr` and `NvsModule.Nvs.SetBlob` are proved without
  asking for anything: after a successful call the instance is valid if and only if `Names.NothingLeft` held before
  it. Otherwise two heads of the key are on flash, which no contents describe (`Setting.TwoHeadsUnread`); for a
  string, the older one is what a lookup finds until the next boot, which keeps the new one. All other keys are as
  they were. `Conditions.IndexInherited` is flash on which this happens; `Runs.InheritedRun` boots it, sets the key
  and is told that it worked. In a store that never lost a name it cannot happen (`Names.NamedNothingLeft`,
  `Runs.NamedDone`).
- **The entry map of an erased reserve page.** `free_page` erases a reserve page whose header was corrupt but
  keeps the entry map it was loaded with (`Scan.LoadSector` states that it is the one on flash).
  `NvsModule.Nvs.FreePage` is proved for any such map: all live items of the source survive the copy if and only if
  the map has nothing but empty or written states in the entries they take (`Stale.StaleCopy`).
  `Conditions.StaleReserve` is flash whose one reserve page has a spoilt map, and `Runs.StaleRun` boots it and loses
  a key with the copy. The crash theorems
  start from flash on which a corrupt header has a blank map behind it (`Instance.SectorOk`); no cut leaves another.
- **The last index met stands for its version.** The scan notes one index per blob version, and the cleanup judges
  the version by it. `Survivors.NewestWholeKept` states exactly when the cleanup keeps the newest head that adds up:
  if and only if every broken head with no newer whole one is the index noted for its version, which one index per
  version implies (`Survivors.OneIndexKnown`). `Conditions.BrokenKept` is flash with two indices of one version on
  which the newer, broken one is kept and the older, whole one erased.
- **Blob indices of more than one entry.** `erase_blob_version` erases one entry. That leaves a tidy page without
  just that item if and only if the item has no other entry (`Sectors.EraseOneEntry`): of a wider index, the next
  entry then counts as an item of its own, as in the sector of `Conditions.WideIndex`.
- **Two indices of one version, again.** The second cleanup erases an older head with the chunks of its version, and
  those may be the chunks of the newer one. With one index per version of the key, what is left of it is whole if it
  was before (`Survivors.WholeStays`, ensured by `NvsModule.Nvs.Cleanups`).
- **Namespace entries wider than one entry.** The scan does not skip their payload. `Scan.ScannedPage` states
  that used + erased is the frontier of the page if and only if no such entry is kept.
- **A repair that does not last.** The scan keeps an unmarked item with valid checksums and then programs its
  entries to Written, which cannot bring back an entry already marked erased. The next boot finds the same items
  if and only if `Scan.Markable` holds; `Conditions.RepairForgotten` is a sector for which it does not. No power
  cut leaves such a sector (`Scan.SoundMarkable`).

The code also relies on checksums. Items carry an ideal item CRC: an entry parses to the item it was formatted
from, or to nothing. For data, no such thing is assumed. A power cut in the middle of a write leaves one of at
most two byte images; `TornSafe` says that the data CRC of that image is not, by accident, that of the data, and
only the outcome of a cut during a string or blob write depends on it. For the CRC of this platform and write units
of up to four bytes, the second image always fails, and what is left of `TornSafe` is that the data does not share
its CRC with as many blank bytes (`Checksums.TornTail`).

## Model

| member | source | states |
|---|---|---|
| Runs.ServeThroughPowerLoss | esp-nvs/tests/recovery.rs:545-600 | crash atomicity: any commands, a cut at any operation of any of them, then cuts at any operation of any number of boots; once a boot gets through, and with power that lasts it does, every confirmed command has its effect, refused ones have none, the interrupted one is there as a whole or not at all (for a new namespace possibly just its entry), and nothing else changed; each reply is the one the command deserves; names under the hypothesis on the page being moved |
| Runs.Serve | esp-nvs/src/nvs.rs:137-211 | an instance serving any sequence of sets and deletes: each reply, the contents and the reserve after it are related as `Outcome` and `Answered` say, and wherever it stops the flash recovers to the last contents; with power that lasts all are answered and none with a flash error, and with enough in reserve the well-formed ones are all confirmed |
| Runs.PowerCycles | esp-nvs/src/init.rs:48-85 | any number of boots each cut at any operation: the contents that come up are the contents that went down, but for names in the one case described; a boot with power that lasts gets through |
| Runs.NothingStored | esp-nvs/src/mem_flash.rs:40-44 | a partition without headers, blank or with leftovers, recovers to the empty store: the base case of every run |
| Runs.NamedDone | esp-nvs/src/items.rs:908-937 | every command keeps the invariant that each key's namespace has its entry |
| Runs.NamesStayApart | esp-nvs/src/items.rs:908-937 | two namespaces never share an index, over every command and cut |
| Runs.ReadsBack | esp-nvs/src/nvs.rs:116-154 | what a confirmed set wrote is what the name and key lead to: the string with its terminator, the blob, or of a primitive the lowest 1, 2, 4 or 8 bytes by type and 0xFF above |
| Runs.SetAndGet | esp-nvs/src/nvs.rs:116-154 | a confirmed set, then the getter: the string text again if it is UTF-8, the bytes of the blob, the lowest bytes of the primitive |
| Runs.ReadAs | esp-nvs/src/get.rs:26-98 | the getter for a kind of value, asked for a key that holds one of that kind, gives just it |
| Runs.StillHeld | esp-nvs/src/nvs.rs:137-211 | whatever was served in between, refused or cut short included, a key holds what the last confirmed set about it wrote |
| Runs.ServeRoundsAndGet | esp-nvs/tests/recovery.rs:545-600 | durability: after any number of rounds of commands, cuts and cut boots, the getter gives, byte for byte, what a confirmed set wrote and no later command was about |
| Runs.CommandTakes | esp-nvs/src/items.rs:663-842 | the pages a command may take, in numbers: two for a primitive or string, for a blob one more per 4000 bytes |
| Runs.RemovedGone | esp-nvs/src/nvs.rs:186-211 | after a confirmed delete the key is not found |
| Runs.OthersUnchanged | esp-nvs/src/nvs.rs:137-211 | whatever became of a command, every other (name, key) reads as before: isolation between keys and between namespaces |
| Runs.AllConfirmed | esp-nvs/src/nvs.rs:137-211 | well-formed commands that are answered and never meet a flash error are all confirmed, if the reserve exceeds what they may take and there is an index for each |
| Runs.StaleRun | esp-nvs/src/compaction.rs:536-564 | booted from flash with one reserve page behind a corrupt header, the copy of a page onto it succeeds and loses what was on the page |
| Runs.ServeRounds | esp-nvs/tests/recovery.rs:545-600 | crash atomicity over any number of rounds, each of commands, a cut and any number of cut boots: one sequence of contents explains every reply of every round, and the store holds the last of them; in a round whose power lasts every command is answered, the well-formed ones confirmed with enough in reserve, and a last boot whose power lasts gets through; it stops only at a cut that leaves a page being moved with nothing but names, on flash that still recovers to the last contents |
| Runs.InheritedRun | esp-nvs/src/items.rs:471-660 | from flash with a key a lost namespace left behind, a short string or blob set under any new name is confirmed and ends in a state no contents describe |
| NvsModule.Nvs.constructor | esp-nvs/src/nvs.rs:63-109 | from any flash, and always if the power lasts: an instance with the partition, at most one active page, the last, and one head per key; otherwise a faulted one with the power gone; from flash that recovers to kv: a valid instance with the same keys, or a faulted one whose flash still recovers to them; with no move pending, the reserve is every sector not in use, with the entry maps found there |
| NvsModule.Nvs.LoadSectors | esp-nvs/src/init.rs:48-85 | boot from any flash, never failing if the power lasts, ends with pages and reserve partitioning the sectors, at most one active page, the last and not full, and one head per key, which with no move pending is the survivor of those found, whole if it was and the key had one index a version; from what a cut left, success gives the full invariant, and the contents are kv if and only if names are not lost, failure comes only with the power gone, with the flash still recovering |
| NvsModule.Nvs.FinishMoves | esp-nvs/src/init.rs:64-67 | the loop over any number of pages marked Freeing ends; after a cut, on the contents before or with names dropped exactly as described, and if none are dropped the live items are the same byte for byte |
| NvsModule.Nvs.Cleanups | esp-nvs/src/init.rs:76-81 | both cleanups, from any scanned pages: of every key exactly one head is left if any stands, the newest that is not the noted index of a version given up, and it is whole if it was and no version of the key had two indices; from a state that recovers to kv, a valid instance holding kv |
| NvsModule.Nvs.ScanSectors | esp-nvs/src/init.rs:132-149 | pages and reserve partition the sectors, notes and names are those of the flash, and every contents the flash recovered to before it still recovers to, cut or not |
| NvsModule.Nvs.ScanAll | esp-nvs/src/init.rs:132-141 | the scan of all sectors: nothing a sector says is changed, and the blob notes and names are exactly what the sectors hold |
| NvsModule.Nvs.FindActive | esp-nvs/src/compaction.rs:142-157 | the active page with the largest sequence, and whether there is more than one |
| NvsModule.Nvs.EnsureActivePageOrder | esp-nvs/src/compaction.rs:138-191 | afterwards only the last page is active and it has room; pages are retired only if full or older than another active one |
| NvsModule.Nvs.RetireAt | esp-nvs/src/compaction.rs:166-188 | one page marked full on flash and in RAM, in place |
| NvsModule.Nvs.ContinueFreePage | esp-nvs/src/compaction.rs:208-264 | from every point a move can be cut at: no move is pending afterwards, the live items are the same byte for byte but for names exactly when LosesNames holds, one reserve page is enough, and a cut in here is recovered from again; from any other flash one page fewer is marked Freeing |
| NvsModule.Nvs.RestartCopy | esp-nvs/src/compaction.rs:239-264 | the copy made again from the source that still holds everything, then the source erased |
| NvsModule.Nvs.PageIsCopyOf | esp-nvs/src/compaction.rs:271-290 | true exactly if the raw header of every hashed item of the candidate is on the source under the same hash |
| NvsModule.Nvs.NewestPageHoldsAllItemsOf | esp-nvs/src/compaction.rs:298-328 | true exactly if the newest page is newer than the source and holds an item of the same identity for each hashed item of it |
| NvsModule.Nvs.FindSame | esp-nvs/src/compaction.rs:311-324 | true exactly if the page holds an item of the same namespace, key and chunk, under any hash collisions |
| NvsModule.Nvs.FindState | esp-nvs/src/compaction.rs:212-228 | the first page in a state, or that there is none |
| NvsModule.Nvs.CleanupDirtyBlobs | esp-nvs/src/compaction.rs:52-115 | from any scanned pages and in whatever order the noted versions are visited: the heads that go are exactly the noted indices of the versions given up, those that do not add up or are older than another that does, so a blob keeps at most one version, with all its chunks; where the flash stands for some contents no key changes its winner, and a cut recovers to the same contents |
| NvsModule.Nvs.SettleVersion | esp-nvs/src/compaction.rs:60-90 | a version whose chunks do not add up in count or size, or that has no index, is removed, and one that adds up is left untouched: the answer says which, if and only if |
| NvsModule.Nvs.KeepNewest | esp-nvs/src/compaction.rs:98-112 | of the versions of a blob that add up, the one with the latest (page sequence, item index) is left and no other |
| NvsModule.Nvs.OldestVersion | esp-nvs/src/compaction.rs:102-104 | no listed version is earlier than the one returned |
| NvsModule.Nvs.EraseBlobVersion | esp-nvs/src/compaction.rs:118-133 | one version's index and some or all of its chunks removed and nothing else; where the flash stands for some contents, the winner of every key is unchanged |
| NvsModule.Nvs.FindPage | esp-nvs/src/compaction.rs:125-129 | the page with a sequence number, or none |
| NvsModule.Nvs.CleanupDuplicateEntries | esp-nvs/src/compaction.rs:334-432 | from any loaded pages, for any hash collisions and any order of runs: every key is left with at most one head, its newest head stays, and its chunks do unless an older head has the same version; where the flash stands for some contents the instance is valid |
| NvsModule.Nvs.CleanupRun | esp-nvs/src/compaction.rs:359-429 | one run of equal hashes, whatever the pages hold: afterwards every key of that hash has a single head, its newest, and keys of other hashes are untouched |
| NvsModule.Nvs.EraseOlder | esp-nvs/src/compaction.rs:409-428 | one key, whatever the pages hold: all heads but the newest erased, chunks of losing blob versions with them, and no item of another key |
| NvsModule.Nvs.OldestCandidate | esp-nvs/src/compaction.rs:415-418 | no candidate is older than the one returned |
| NvsModule.Nvs.AllSpots | esp-nvs/src/compaction.rs:350-357 | every live item but namespace entries, with page, index and hash, ordered by page and index |
| NvsModule.Nvs.LoadCandidates | esp-nvs/src/compaction.rs:365-400 | exactly the heads among the spots of a run, with full identity |
| NvsModule.Nvs.EraseLoser | esp-nvs/src/compaction.rs:422-426 | a head erased, and of its version's chunks, if it was a blob index, and nothing else, chunks of other versions and keys counted one by one; if it was a losing one, no winner changes |
| NvsModule.Nvs.Defragment | esp-nvs/src/compaction.rs:452-516 | the page reclaimed, whose sector is blank afterwards, has something erased if any candidate has, and the largest 10 * erased - sequence; without a cut every key keeps the same live items, each once; a copied page leaves the reserve as it was and its copy has 126 minus the used entries free, an emptied one joins the reserve; FlashFull exactly if no page has anything to gain; the unreachable arms are not needed, as every page is Full here; cut anywhere, the flash still stands for the same items |
| NvsModule.Nvs.MoveAway | esp-nvs/src/compaction.rs:500-509 | the live items of a page moved to one of the reserve and the page erased: each live item once, the reserve as large as before; after any cut the flash still stands for the same items |
| NvsModule.Nvs.PickPage | esp-nvs/src/compaction.rs:468-483 | among the pages with fewer than 126 used entries, the last of those with the largest 10 * erased - sequence; one with nothing erased only if none has anything; none only if there is no such page |
| NvsModule.Nvs.ErasePage | esp-nvs/src/compaction.rs:519-534 | the sector is blank, its page in the reserve, everything else as it was |
| NvsModule.Nvs.FreePage | esp-nvs/src/compaction.rs:536-564 | the source marked first, then a reserve page filled: all live items survive if and only if the entry map the page was popped with is empty or written where they go; with a blank reserve, a cut at any operation leaves a state the boot finishes |
| NvsModule.Nvs.InitReserve | esp-nvs/src/compaction.rs:550-556 | a reserve page erased if needed and given its header, its entry map in RAM reset for one caller and kept for the other; unless a stale one is kept, an empty active page with a sequence above all others |
| NvsModule.Nvs.CopyItems | esp-nvs/src/compaction.rs:576-614 | the target holds the live items of the source byte for byte and in order, packed from entry 0, under the entry map in RAM, whatever that is; with the flash's own map the copy is exact and a cut leaves a packed first part |
| NvsModule.Nvs.PopFree | esp-nvs/src/page.rs:718-727 | a blank page before leftovers, of blank ones the lowest address, of leftovers the lowest sequence; the rest stays |
| NvsModule.Nvs.GetActivePage | esp-nvs/src/items.rs:844-898 | the page taken is the newest, active and has room; live items are unchanged whether a page is reused, initialized or defragmented; FlashFull if and only if no page is active and there is no reserve page, or one and 126 used entries on every page; a page from the reserve is the first out of it and has the sequence number one above the largest; a reserve that was not empty stays so and shrinks by one at most; with two or more reserve pages it never defragments |
| NvsModule.Nvs.TakeFree | esp-nvs/src/items.rs:870-895 | a page from the reserve, the first out of it, empty and active with the sequence number one above the largest; a cut leaves the same live items |
| NvsModule.Nvs.Retire | esp-nvs/src/page.rs:107-121 | a page marked full goes back among the pages as retired, and on a flash error as it was |
| NvsModule.Nvs.NextPage | esp-nvs/src/items.rs:398-402 | after a full page is retired another is taken, or the error leaves all pages in place |
| NvsModule.Nvs.RetireIfFull | esp-nvs/src/items.rs:396-403 | nothing is lost when the page filled by a namespace entry is retired |
| NvsModule.Nvs.ActiveWithNamespace | esp-nvs/src/items.rs:384-394 | a page to write to and the index of the name, created if new; FlashFull if and only if no page can be had, else TooManyNamespaces if and only if the name is new and index 254 taken; an error puts the page back |
| NvsModule.Nvs.GetOrCreateNamespace | esp-nvs/src/items.rs:908-937 | the index the name has, or one above all others, written as an entry of its own; TooManyNamespaces if and only if the name is new and index 254 taken; names in RAM and on flash agree |
| NvsModule.Nvs.AddNamespace | esp-nvs/src/items.rs:926-932 | a new name written with its index: names in RAM, contents and the items of other keys agree with what was; a cut leaves the contents without the entry or with it |
| NvsModule.Nvs.MaxNamespace | esp-nvs/src/items.rs:922-926 | the largest index in use, and that it is in use |
| NvsModule.Nvs.LoadKey | esp-nvs/src/items.rs:939-985 | the lookup by hash returns what a linear search in page order over full identities returns, for any hash function |
| NvsModule.Nvs.FindKey | esp-nvs/src/items.rs:939-985 | the item found for a key is the head that carries its value |
| NvsModule.Nvs.EraseAt | esp-nvs/src/page.rs:613-632 | one item erased in place on its page, all others as they were |
| NvsModule.Nvs.DeleteKey | esp-nvs/src/items.rs:211-235 | the first matching item in page order goes, with the chunks of its version if it was a blob index, and no other item; KeyNotFound exactly if there is none |
| NvsModule.Nvs.DeleteBlobData | esp-nvs/src/items.rs:237-265 | no chunk of the version is left, chunks of the other version and all other keys are untouched |
| NvsModule.Nvs.SetPrimitive | esp-nvs/src/items.rs:360-469 | success sets exactly this key, whatever a lost namespace left; malformed names, a wrong type, too many namespaces and, for a known name, FlashFull are each reported if and only if they are so, the first three with nothing changed; any other error but FlashError changes at most the namespace's entry; FlashFull never with three reserve pages; a cut leaves the old value or the new one, and FlashError needs one; the value held then has the lowest bytes, as many as the type is wide, and 0xFF above; a value held already costs no flash operation |
| NvsModule.Nvs.StorePrimitive | esp-nvs/src/items.rs:378-469 | the part after the checks: sets exactly this key, with every error of the page, the namespace and the write and what a cut at any of them leaves |
| NvsModule.Nvs.PutPrimitive | esp-nvs/src/items.rs:406-469 | write then erase of whatever the key held, string and blob included, is atomic for the next boot; nothing is written if the key holds the value already |
| NvsModule.Nvs.ReplacePrimitive | esp-nvs/src/items.rs:424-469 | the item written to the last page, then the older one of whatever kind erased: the old value or the new one at every cut |
| NvsModule.Nvs.SetStr | esp-nvs/src/items.rs:471-576 | success sets exactly this key, and leaves the instance valid if and only if nothing was left under a new namespace's index; malformed names and ValueTooLong, beyond 4000 bytes, are reported if and only if they are so, with nothing changed, and too many namespaces whenever a page can be had; FlashFull never with three reserve pages, and PageFull never reaches the caller; a cut leaves the old value or the new one; a string held already changes nothing |
| NvsModule.Nvs.PutString | esp-nvs/src/items.rs:528-575 | a string that does not fit the page goes to the next one; FlashFull if it does not fit there, never with two reserve pages; an old item that was not seen stays next to it |
| NvsModule.Nvs.AppendString | esp-nvs/src/items.rs:528-529 | a string item appended to the page, or the page as it was |
| NvsModule.Nvs.DropOld | esp-nvs/src/items.rs:570-573 | the delete after a write removes the older item if it was seen, the value just written stays |
| NvsModule.Nvs.EraseOld | esp-nvs/src/items.rs:455-466 | erasing the item found before the write by place, span and chunks leaves the new value alone |
| NvsModule.Nvs.SetBlob | esp-nvs/src/items.rs:578-660 | as SetStr for blobs, errors and cuts stated for keys that were not overlooked; over one that was, all other keys hold their values, confirmed or not; with a reserve of three pages more than the data needs it never reports FlashFull, and ValueTooLong only for the length |
| NvsModule.Nvs.StoreBlob | esp-nvs/src/items.rs:622-659 | the part after the comparison: over any previous value the key becomes exactly this blob, with every error of the page, the namespace and the write and what a cut at any of them leaves |
| NvsModule.Nvs.PutBlob | esp-nvs/src/items.rs:630-659 | the new version is written under the other half of the chunk indices, then the old item goes; a failed write leaves no chunk behind; over a head that was overlooked, two heads if it succeeds, and in any case sound pages and all other keys as they were |
| NvsModule.Nvs.FindBlobVersion | esp-nvs/src/items.rs:335-357 | the version the key holds now, none if it holds no blob |
| NvsModule.Nvs.CompareString | esp-nvs/src/items.rs:494-516 | whether the key holds anything, and whether it holds exactly this string |
| NvsModule.Nvs.CompareBlob | esp-nvs/src/items.rs:602-617 | whether the key holds anything, and whether it holds exactly these bytes |
| NvsModule.Nvs.WriteBlobVersion | esp-nvs/src/items.rs:663-842 | at most 2 * 127 + 1 turns whatever pages are handed out; the chunks written are the data split in order; with the reserve it needs, never ValueTooLong or FlashFull; cut anywhere, the old value or the new one |
| NvsModule.Nvs.TakePage | esp-nvs/src/items.rs:716-719 | taking a page keeps the old value and the chunks written so far |
| NvsModule.Nvs.RetireWriting | esp-nvs/src/items.rs:745-749 | retiring a page during a blob write keeps the old value and the chunks written so far |
| NvsModule.Nvs.WriteChunk | esp-nvs/src/items.rs:784-821 | one chunk more of the new version, invisible until its index exists |
| NvsModule.Nvs.WriteIndex | esp-nvs/src/items.rs:825-842 | the index makes the new version the value, at one flash operation |
| NvsModule.Nvs.GetPrimitive | esp-nvs/src/items.rs:51-73 | Ok(raw) if and only if the key holds that primitive of that type; KeyMalformed and NamespaceMalformed by the last of the 16 bytes, NamespaceNotFound, KeyNotFound and ItemTypeMismatch each if and only if it is so |
| NvsModule.Nvs.GetString | esp-nvs/src/items.rs:75-113 | Ok(t) if and only if the key holds t and a last byte and t is UTF-8, CorruptedData if it is not or nothing is before the terminator; the other errors as for GetPrimitive |
| NvsModule.Nvs.GetBlob | esp-nvs/src/items.rs:115-209 | Ok(b) if and only if the key holds the blob b; the other errors as for GetPrimitive |
| NvsModule.Nvs.ReadIndexed | esp-nvs/src/items.rs:133-194 | for any contents of the pages, Ok exactly if the indexed chunks, read by reference search and joined in order, have the size the index says, and then just those bytes; the read size makes no difference |
| NvsModule.Nvs.ReadChunk | esp-nvs/src/items.rs:150-185 | one chunk read into its place, Ok exactly if the reference search finds one with valid data that fits; bytes before it are untouched |
| NvsModule.Nvs.ReadInto | esp-nvs/src/page.rs:395-408 | the data lands at the offset, bytes before it are untouched, bytes after it may be anything up to the aligned size |
| NvsModule.Nvs.BlobIsEqual | esp-nvs/src/items.rs:274-333 | the comparison from the last chunk back is true exactly when reading the blob would give the data, for any contents of the pages |
| NvsModule.Nvs.Set | esp-nvs/src/nvs.rs:137-154 | the refusals each exactly for what is wrong, otherwise the value set or the error, valid afterwards exactly if nothing was overlooked and all other keys as they were, with the instance faulted exactly after a flash error, which takes a cut, and refusing everything then; with more pages in reserve than the value may take, neither FlashFull nor ValueTooLong; with an active page, a value held already costs no flash operation |
| NvsModule.Nvs.Delete | esp-nvs/src/nvs.rs:186-211 | malformed names refused, exactly those and with nothing changed; otherwise the key gone, a missing key or namespace no error and no flash operation; cut, the old contents or those without the key |
| Stale.StaleCopy | esp-nvs/src/compaction.rs:576-614 | copying items into an erased page with any entry map in RAM: all of them survive if and only if the map is empty or written in every entry they take |
| Conditions.NamesLost | esp-nvs/src/compaction.rs:298-328 | for every codec and name, flash that recovers to a store with that namespace, in the middle of a move, and loses its entry at the next boot |
| Conditions.IndexInherited | esp-nvs/src/items.rs:918-926 | for every codec, name and key, flash that recovers to a store in which the index the new name gets has the key already |
| Setting.TwoHeadsUnread | esp-nvs/src/items.rs:494-576 | two heads of one key on flash are a state no contents describe |
| Conditions.StaleReserve | esp-nvs/src/compaction.rs:550-556 | for every codec and key, flash on which boot ends with one page in reserve whose entry map is spoilt from the first entry on, and a full page with that key |
| Conditions.BrokenKept | esp-nvs/src/compaction.rs:52-115 | for every codec and key, flash with two indices of one version of which the cleanup keeps the newer, which does not add up, and not the older, which does |
| Conditions.WideIndex | esp-nvs/src/compaction.rs:118-133 | for every codec there is a sector with a blob index of two entries of which erasing one shows an item that was not there; when exactly is `Sectors.EraseOneEntry` |
| Conditions.WideEntry | esp-nvs/src/init.rs:406-409 | for every codec there is a sector with a namespace entry of two entries that the scan keeps |
| Conditions.RepairForgotten | esp-nvs/src/init.rs:317-340 | for every codec there is a sector the scan repairs in a way the next scan does not agree with |
| Sectors.JudgeKeeps | esp-nvs/src/init.rs:252-447 | in bytes: an entry marked Written is kept if and only if it holds an item whose span fits and is all marked Written; one still marked Empty if and only if it holds an item of one of the twelve types that is complete by its own checksums |
| Scan.LoadSector | esp-nvs/src/init.rs:154-474 | for arbitrary sector contents: used + erased is the frontier between entries in use and blank ones if and only if namespace entries are single, it never passes 126, the hash list and notes are those of the items kept, and the repair lasts if and only if `Markable`; for what a cut can leave, the items are the same before, during and after the repair |
| Scan.ScanEntries | esp-nvs/src/init.rs:252-447 | the loop keeps the exact account of entries, items, hashes and entry map |
| Scan.SettleEntry | esp-nvs/src/init.rs:252-400 | one entry judged and settled, on flash and in the counters, as the verdict of the reference says |
| Scan.RecoverEntry | esp-nvs/src/init.rs:274-346 | an unmarked item is taken if its checksums hold and marked erased otherwise |
| Scan.FillGaps | esp-nvs/src/init.rs:449-474 | blank entries before the last one in use become erased, nothing else changes |
| Scan.Rescanned | esp-nvs/src/init.rs:252-474 | a second scan of the repaired sector finds the same items, tidy, if and only if the entries of all kept items could be programmed to Written |
| Scan.SoundMarkable | esp-nvs/src/init.rs:252-474 | every sector a power cut can leave is one whose repair lasts |
| Scan.SoundMid | esp-nvs/src/init.rs:252-474 | a cut at any point of the repair of a sector a cut left behind changes nothing for the next scan |
| Scan.WalkStep | esp-nvs/src/init.rs:252-447 | each turn of the loop preserves the account of items, hashes, counters and marks |
| Sectors.ScanOrdered | esp-nvs/src/init.rs:441-446 | whatever a sector holds, the items kept lie inside it, in order and without overlap |
| Sectors.ScanErase | esp-nvs/src/page.rs:613-632 | marking an item erased removes exactly it from what a scan finds |
| Sectors.EraseOneEntry | esp-nvs/src/compaction.rs:118-133 | erasing one entry of a kept item leaves a tidy page without just that item if and only if the item has no other entry |
| Sectors.ScanSplit | esp-nvs/src/page.rs:579-585 | a tidy prefix is scanned the same whatever is written after it |
| Pages.AppendWritten | esp-nvs/src/page.rs:200-213 | an item written behind the tidy prefix and marked is found in addition to all others |
| Pages.AppendUnmarked | esp-nvs/src/page.rs:200-203 | before the entry map is written the scan decides by the item's own checksums |
| Flash.ProgramOnBlank | esp-nvs/src/mem_flash.rs:128-135 | on blank bytes programming stores exactly the bytes given and alters no other |
| Flash.WriteAligned | esp-nvs/src/raw.rs:418-447 | any length, in whole writes and a padded remainder, programs just the bytes given; a cut leaves nothing or the whole writes |
| PageOps.SetEntryStateRange | esp-nvs/src/page.rs:502-545 | in RAM exactly the range changes; on flash whole write units of the map in RAM are programmed, which is the same range if RAM and flash agreed |
| PageOps.WriteItem | esp-nvs/src/page.rs:163-221 | the item lands on blank entries and the page is as before plus this item; a cut leaves the page without it or with it complete |
| PageOps.WriteVariableSizedItem | esp-nvs/src/page.rs:232-318 | as WriteItem for header and data, ValueTooLong and PageFull exactly by size, and untouched then |
| PageOps.CopyItemFrom | esp-nvs/src/page.rs:325-370 | the copy has the source's bytes; PageFull and CorruptedData exactly by room and span |
| PageOps.Commit | esp-nvs/src/page.rs:203-218 | counters, hash list and state follow the flash once the entry map is written |
| PageOps.EraseItem | esp-nvs/src/page.rs:613-632 | used + erased stays, the item alone is gone from flash and hash list; a cut changes nothing |
| PageOps.Initialize | esp-nvs/src/page.rs:76-105 | one operation gives the sector its header |
| PageOps.MarkAsFull | esp-nvs/src/page.rs:107-121 | one operation takes the state on flash to Full |
| PageOps.LoadReferencedData | esp-nvs/src/page.rs:372-436 | Ok exactly for a sized item whose span and size fit its page |
| PageOps.TornData | esp-nvs/src/page.rs:296-305 | data cut in the middle of a write fails its CRC and its entries are dropped by the scan |
| Lookup.FindOnPage | esp-nvs/src/items.rs:950-981 | candidates with an equal hash are compared in full, so collisions never matter |
| Duplicates.HashListSpots | esp-nvs/src/page.rs:207-213 | the hash list has an entry for every item but namespace entries, with its hash and place, no other entry, and is ordered by place |
| BlobReads.CarriedRead | esp-nvs/src/items.rs:133-194 | reading the chunks of a key's blob by lookup gives the bytes its bag carries |
| BlobReads.AssemblePrefix | esp-nvs/src/items.rs:150-185 | if the front of a blob does not read, the blob does not |
| BlobWrites.VersionsApart | esp-nvs/src/types.rs:196-219 | the chunk indices of the two versions are disjoint, never 0xFF, tell their version, and are exactly those the sweep covers: 0 to 126 and 128 to 254; a first blob takes the lower half, and every next one the other |
| BlobWrites.SweptClean | esp-nvs/src/items.rs:641-644 | after the sweep no chunk of the version given up is left and the old value is read as before |
| Setting.NewestWins | esp-nvs/src/items.rs:646-657 | an item just appended is the newest of its key, so the next boot keeps it and drops the other |
| Setting.TornSet | esp-nvs/src/items.rs:435-449 | a cut while the new head is written recovers to the old value or the new one |
| Setting.FirstIsOld | esp-nvs/src/items.rs:646-657 | after the write the first match in page order is the older item: the active page is last and lists keep write order |
| Setting.PendingDone | esp-nvs/src/items.rs:646-657 | once the older item is gone, the key reads as the new value |
| Compaction.InterruptedRecovers | esp-nvs/src/compaction.rs:536-564 | a cut anywhere in a defragmentation leaves flash that stands for the contents before it |
| Compaction.FinishMove | esp-nvs/src/compaction.rs:500-516 | with the source erased every key has the same items, each once |
| Survivors.NewestWholeKept | esp-nvs/src/compaction.rs:52-115 | over any scanned pages, the head the cleanups keep is the newest that adds up, for every head of the key, if and only if each broken head with no newer whole one is the index noted for its version |
| Survivors.OneIndexKnown | esp-nvs/src/init.rs:411-431 | with one index per version every broken head is noted |
| Survivors.SurvivorsLeft | esp-nvs/src/compaction.rs:52-115 | erasing the noted indices of the versions given up, then all but the newest head of each key, leaves the survivors and no other head |
| Survivors.SurvivorsWhole | esp-nvs/src/compaction.rs:413-428 | through both cleanups, a whole survivor of a key with one index a version keeps all its chunks |
| Winners.ReadsWins | esp-nvs/src/compaction.rs:334-432 | a key that reads as a value has that value as its winner |
| Winners.WinsDrop | esp-nvs/src/compaction.rs:413-428 | dropping a head that is not the newest whole one keeps the winner |
| Winners.WinsShed | esp-nvs/src/compaction.rs:52-115 | dropping chunks of a version no whole index owns keeps the winner |
| Observations.ViewCounts | esp-nvs/src/init.rs:411-431 | count and size noted for a version are those of its chunks, over all sectors |
| Observations.ViewIndex | esp-nvs/src/init.rs:411-431 | the index noted for a version is one that is there, and none is noted only if there is none |
| Observations.ViewNames | esp-nvs/src/init.rs:406-409 | a name is known exactly if an entry gives it, with the index that entry gives |
| Cleanup.OlderLoses | esp-nvs/src/compaction.rs:98-112 | of two whole versions the earlier one is not the winner |
| Duplicates.OldestLoses | esp-nvs/src/compaction.rs:413-428 | the oldest of several heads of a key is not the winner |
| Duplicates.LonelyHash | esp-nvs/src/compaction.rs:359-362 | a key whose hash occurs once has a single head |
| Duplicates.CleanedSteady | esp-nvs/src/compaction.rs:334-432 | single heads and whole versions make every key read as its winner, with no chunk left over |
| Recovery.ScanRecovers | esp-nvs/src/init.rs:132-149 | the repairing scan keeps every contents the flash recovers to |
| Recovery.RetiredRecovers | esp-nvs/src/compaction.rs:138-191 | retiring pages at boot keeps every contents the flash recovers to |
| Recovery.CopyPasses | esp-nvs/src/compaction.rs:271-290 | every copy of the source passes the test for one |
| Recovery.CopyHoldsAll | esp-nvs/src/compaction.rs:298-328 | a complete copy passes the test for holding all items |
| Recovery.SourceEmpty | esp-nvs/src/compaction.rs:298-328 | without a copy, a source passes that test only if it has no hashed item |
| Recovery.SourceErased | esp-nvs/src/compaction.rs:234-237 | erasing the source after the test loses nothing but names, and those exactly when LosesNames holds |
| Recovery.PartialErased | esp-nvs/src/compaction.rs:229-233 | erasing a partial copy leaves the move where it began, with a page free again |
| Boot.BootedClean | esp-nvs/src/init.rs:48-85 | with no move pending, what recovers to kv has kv as the winners of its keys |
| Boot.NamesBooted | esp-nvs/src/init.rs:406-409 | the names read at boot are those of the recovered contents |
| Names.Refusals | esp-nvs/src/nvs.rs:191-196 | KeyMalformed exactly if the last of the 16 bytes of the key is not null, else NamespaceMalformed exactly for the namespace's |
| Names.NamesAccepted | esp-nvs/src/types.rs:8-40 | a name of up to 15 bytes, padded with nulls, is refused by no call |
| Names.NamesTold | esp-nvs/src/types.rs:8-40 | two such names without nulls of their own are the same key only if they are the same |
| BlobWrites.SetLimits | esp-nvs/src/raw.rs:33-39 | the refusals in numbers: a string beyond 3999 bytes, a blob beyond 507999, a primitive of none of the eight types, each with its error |
| BlobWrites.SetHeld | esp-nvs/src/items.rs:380-383 | the bytes kept of a primitive by its type, the terminator added to a string, a blob as it is |
| Names.NameFresh | esp-nvs/src/items.rs:922-926 | one above the largest index is free and is the next index |
| Names.NamedNothingLeft | esp-nvs/src/items.rs:908-937 | if every key has its namespace, a new namespace has no keys |
| Crc.SoftwareCrc32 | esp-nvs/src/platform.rs:38-53 | the nested loop computes the CRC function the properties are about |
| Polynomial.CrcRemainder | esp-nvs/src/platform.rs:24-53 | the bits of that CRC are the complement of the remainder, by long division, of the message's bits, lowest first, times x^32, its first 32 coefficients complemented or, for a later call, changed by the value it starts from, by the polynomial of section 8 of RFC 1952 |
| Polynomial.CrcFromOnes | esp-nvs/src/raw.rs:224-229 | as the driver calls it, from u32::MAX, the remainder of the message itself |
| Polynomial.RemainderSame | esp-nvs/src/platform.rs:24-53 | the remainder does not change when the divisor, shifted by any amount, is subtracted |
| Polynomial.RemainderShort | esp-nvs/src/platform.rs:24-53 | what is shorter than the divisor is its own remainder |
| Polynomial.WordOfBits | esp-nvs/src/platform.rs:41-42 | up to four bytes as a word have the bits of the bytes, in order, and zeros above |
| Crc.Streaming | esp-nvs/src/platform.rs:45-53 | pieces fed one after another equal one pass over their concatenation |
| Crc.BitStepBijective | esp-nvs/src/platform.rs:43-49 | each bit step is a bijection on 32-bit states, with its inverse given |
| Crc.FeedInjective | esp-nvs/src/platform.rs:38-53 | for a fixed message the register never merges two states |
| Crc.FeedWord | esp-nvs/src/platform.rs:38-53 | up to four bytes enter the register at once, as the word with their bits |
| Crc.BurstSeen | esp-nvs/src/platform.rs:38-53 | two messages that differ only within four neighbouring bytes never share a CRC |
| Crc.OneByteSeen | esp-nvs/src/platform.rs:38-53 | two messages of one length that differ in exactly one byte never share a CRC |
| OnFlash.EntryFields | esp-nvs/src/raw.rs:231-240 | every field of an item by its offset: namespace 0, type 1, span 2, chunk 3, key 8 to 23, data 24 to 31 with size and CRC of sized items, size, count and start of an index |
| OnFlash.EntryChecked | esp-nvs/src/raw.rs:369-376 | 32 bytes are an item if and only if the bits of bytes 4 to 7 are the complement of the remainder of the other 28, with an unknown type byte read as 0xFF |
| OnFlash.TypeCodes | esp-nvs/src/raw.rs:152-181 | the thirteen type codes, and that of a primitive's code the low four bits are its width in bytes |
| OnFlash.ReservedOnes | esp-nvs/src/raw.rs:292-341 | the reserved bytes of sized items and indices stay unprogrammed |
| OnFlash.NamespaceEntry | esp-nvs/src/page.rs:223-230 | the bytes of a namespace entry: namespace 0, a U8, the name as key and the index as first data byte |
| OnFlash.PrimitiveEntry | esp-nvs/src/page.rs:163-221 | the bytes of a primitive: one entry, no chunk index, its eight data bytes |
| OnFlash.IndexEntry | esp-nvs/src/items.rs:825-842 | the bytes of a blob index: size, count and first chunk, in one entry without chunk index |
| OnFlash.SizedEntries | esp-nvs/src/page.rs:232-318 | the bytes of a string or chunk: a header with size and CRC, and in the fewest entries after it the data, with ones behind |
| OnFlash.HashIs | esp-nvs/src/raw.rs:361-367 | the lookup hash is the low 24 bits of the CRC over namespace, key and chunk index |
| OnFlash.StateCodes | esp-nvs/src/raw.rs:79-86 | the states of an entry by their two bits, the lowest pair first |
| OnFlash.SectorParts | esp-nvs/src/raw.rs:31-66 | a sector in offsets: header, map from byte 32, 126 entries of 32 bytes from byte 64, 4096 in all |
| OnFlash.HeaderFields | esp-nvs/src/raw.rs:92-150 | the state words, the sequence number at byte 4, and the CRC at byte 28 over bytes 4 to 27, in bits |
| Layout.ItemRoundTrip | esp-nvs/src/raw.rs:234-248 | an item formatted to 32 bytes parses back to itself |
| Layout.BlankNoItem | esp-nvs/src/init.rs:275-278 | an entry of all ones is no item: its CRC does not match |
| Layout.TypeRoundTrip | esp-nvs/src/raw.rs:51-55 | a byte reads as a type exactly if it is that type's byte, and as Any exactly if it is no type's |
| Checksums.TornTail | esp-nvs/src/page.rs:296-305 | for the platform's CRC and write units of up to four bytes, a torn string or chunk is told from the whole if and only if blank bytes in its place are |
| Checksums.ShortSafe | esp-nvs/src/page.rs:296-305 | up to four bytes are always told from a torn write |
| Checksums.TornChunks | esp-nvs/src/items.rs:751-800 | the same for every chunk a blob can be cut into |
| Layout.LayoutOk | esp-nvs/src/raw.rs:369-376 | the layout and the CRC of the source are a codec as the model asks for |
| MemFlashModule.MemFlash.Write | esp-nvs/src/mem_flash.rs:128-135 | in range and aligned, each byte is ANDed; otherwise an error and nothing changes |
| MemFlashModule.MemFlash.Erase | esp-nvs/src/mem_flash.rs:121-126 | whole sectors in range become ones; otherwise an error and nothing changes |
| MemFlashModule.MemFlash.Read | esp-nvs/src/mem_flash.rs:106-110 | the bytes of the range, or an error |
| MemFlashModule.MemFlash.constructor | esp-nvs/src/mem_flash.rs:40-44 | all ones, of the size asked for |
| MemFlashModule.MemFlash.WriteAligned | esp-nvs/src/raw.rs:418-447 | for every write size dividing 32 and any length, the flash is ANDed with just the bytes given; it succeeds whenever the padded range fits |
| MemFlashModule.ProgrammedAgain | esp-nvs/src/mem_flash.rs:128-135 | of the flash alone: ANDing in bytes of which a first part was ANDed in already gives what ANDing them in once gives |
| EntryMap.SetRange | esp-nvs/src/page.rs:502-545 | on the bytes of RAM and flash: the new state is ANDed into exactly the entries of the range, bytes outside the map are untouched, and the flash map is the sector model's |
| EntryMap.AndIn | esp-nvs/src/raw.rs:83-90 | ANDing two bytes of the map ANDs the two-bit states slot by slot |
| EntryMap.SetIn | esp-nvs/src/page.rs:516-524 | the masked AND changes one slot and leaves its neighbours |
| EntryMap.StaysEqual | esp-nvs/src/page.rs:502-545 | maps equal before are equal after |
| EntryMap.DecodedInjective | esp-nvs/src/page.rs:483-500 | the states determine the bytes |
| Image.BodyImage | esp-nvs/src/mem_flash.rs:128-135 | programming entry bytes on flash is programming the sector's body |
| Image.MapImage | esp-nvs/src/mem_flash.rs:128-135 | programming map bytes on flash is programming the sector's entry states |
| Image.StateImage | esp-nvs/src/raw.rs:97-116 | programming a state word over a written header leaves the later state, with sequence and CRC validity as they were |
| Image.InitializeImage | esp-nvs/src/page.rs:76-105 | a header programmed on a blank one reads back with its sequence and a valid CRC |
| Image.ErasedImage | esp-nvs/src/mem_flash.rs:121-126 | an erased sector decodes to the blank sector |
| Image.OtherSector | esp-nvs/src/mem_flash.rs:128-135 | a write leaves every other sector as it was |
| Image.StatesApart | esp-nvs/src/raw.rs:137-150 | every state word decodes to its state |
| Platform.AlignCeil | esp-nvs/src/platform.rs:70-77 | the smallest multiple not below the size |
| Platform.AlignFloor | esp-nvs/src/platform.rs:80-86 | the largest multiple not above the size |
| Platform.MaskFloor | esp-nvs/src/platform.rs:80-86 | masking and dividing agree for the alignments 1, 2, 4, 8, 16 and 32 on 32-bit sizes |

## Left out

Not modelled:

- Reads that fail: every read succeeds; a failing operation is a write or an erase past the budget, and from then
  on all of them fail. A flash error that goes away again is not modelled.
- Writes torn inside one flash operation: a cut falls between two operations. What torn bytes do to the entries of
  a page with a valid header is covered by `Scan.LoadSector`, which holds for arbitrary contents.
- Sectors with a corrupt header and a used entry map in the crash theorems: a header is written by one operation, so
  no cut between operations leaves one; the scan and the boot of arbitrary flash handle them, and what their entry
  map does to a copy is in `NvsModule.Nvs.FreePage`.
- A faulted instance's getters: after a flash error the getters of the source still read; here they ask for `Valid`.
- Sequence numbers are unbounded; the source's saturate at the largest 32-bit number.
- Legacy single-page blobs and their migration (init.rs:97-130): an ordinary `set_blob` over another kind of item.
- Purge mode, `purge_all`, statistics, the key iterators, trait dispatch and casts of `get` and `set`, debug output,
  partition offset and size checks, and the partition tool.
- The order in which a BTreeMap or a sort visits things: the cleanups are proved for any order.
- UTF-8: the check of `get_string` is a parameter.
- The unused slack of a blob read: bytes past the chunk are arbitrary here, and the result does not depend on them.

Modelled on values where the source updates in place:

- Pages and the flash in `Pages`, `PageOps`, `Scan` and `Flash` are values, returned updated: the source owns every
  `ThinPage` and the platform by value and keeps no second reference, so aliasing cannot arise. The instance, the
  byte-level flash and the bytes of the entry map are updated in place.

Stated weaker or with conditions:

- NvsModule.Nvs.SetBlob: when a key was overlooked and the call fails, the sweep may take chunks of the older blob
  with it, and nothing is promised for that one key. When a write fails for lack of room and the power goes during
  the sweep that follows, whose error the source ignores, it reports the first error on flash that recovers to the
  old contents but is not a valid instance any more. After a flash error the sweep is skipped here, as it can change
  nothing. FlashFull and, for many small chunks, ValueTooLong are bounded by the reserve, not characterised.
- NvsModule.Nvs.SetStr: FlashFull is bounded by the reserve, not characterised.
- NvsModule.Nvs.SetPrimitive: for a new name FlashFull may also come after the name's entry took the last room.
- NvsModule.Nvs.constructor: from flash that does not recover to any contents, the instance is one to search and
  clean (`NvsModule.Nvs.LoadKey`, `ReadIndexed`, `DeleteKey`); the calls by name ask for `Valid`.
- NvsModule.Nvs.Set: for blobs, the same.
- NvsModule.Nvs.LoadSectors: arbitrary flash means flash that meets `FlashFit` and `SequencesDiffer`; with a move
  pending, which head of a key is left is stated for what the moves leave, in `NvsModule.Nvs.Cleanups`.
- NvsModule.Nvs.EraseBlobVersion: asks for an index of one entry; what becomes of a wider one is in
  `Sectors.EraseOneEntry`. Of chunks that are on flash more than once, one of each index is erased.
- Runs.ServeRounds: stops at the first cut after which a page being moved holds only names.
- Runs.ServeThroughPowerLoss: asks that every key has its namespace entry at the start, which holds for a new store
  and is kept by every command; names survive the boots if no page being moved holds only names.
- Image.StateImage: for headers whose state word is one of the known ones.
- MemFlashModule.ProgrammedAgain: no operation of the driver repeats a write; this is a property of the flash.
- MemFlashModule.MemFlash.Write: the write size is a parameter of the flash; in the source's own it is four.
