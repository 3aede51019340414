# calcurse: CalDAV reconciliation and the event list

This project models two parts of calcurse in Dafny.

The first is `calcurse-caldav`, the script that keeps the local calcurse
store and a CalDAV collection in step. A run does the following:

- checks the calcurse version;
- either initialises (`--init=keep-remote`, `keep-local` or `two-way`) or
  loads the synchronization database, which maps server ETags to local
  object hashes;
- pulls the objects the database does not know yet and removes local objects
  whose server resource has gone;
- pushes local objects the database does not know and deletes server
  resources whose local object has gone;
- saves the database.

The second is the event list of `src/event.c`. It covers:

- the ordering of events (`event_cmp`);
- sorted insertion on creation and paste;
- deletion;
- duplication;
- the validation and filter decision of `event_scan`.

The model uses the following files:

- `wrappers.dfy`: Option, Result and Outcome.
- `text.dfy`: the Python string operations the script relies on (`rstrip`, `strip`, `split`).
- `config.dfy`: the dry-run and verbose settings.
- `version.dfy`: `calcurse_version` and the version gate.
- `syncdb.dfy`: the database file format (`get_syncdb`, `save_syncdb`) and its round trip.
- `reconcile.dfy`: what pull and push do, as functions of the state before them.
  It also holds the properties of whole passes: convergence, idempotence, and the propagation of deletions.
- `session.dfy`: class `Session`. It has the in-memory database, the local store, the server collection and the database file as fields.
  Its methods are the loops of the script, proved against the functions of `reconcile.dfy`.
- `events.dfy`: class `Event` and class `EventList`. The list is a `seq<Event>` that the methods reassign, with a sortedness and distinctness invariant.

The stores are abstract:

- The local store is the set of object hashes calcurse reports.
- The server collection is a map from ETag to href.
- Importing an object and PUTting one each hand out a name the store did not hold before.

The server's listing (`get_hrefmap`) is the collection itself, unless the REPORT answer has an empty body; then it is empty (`Sync.Listing`).
Whether the body is empty is an input to a run, and so is the multiget answer.
The output of `calcurse --version` is also an input.

A multiget record without an ETag or calendar data aborts the run.
The objects imported before that record stay in the local store, and their entries stay in the in-memory database; the database file is not written.
See `Sync.Imported`.

## Model

| member | source | states |
|---|---|---|
| Config.DryRunSetting | contrib/caldav/calcurse-caldav.py:345-348 | A run is a dry run unless the DryRun option says otherwise |
| Config.ResolveAsWritten | contrib/caldav/calcurse-caldav.py:345-351 | As written: verbose is only the -v flag, and without -v a Verbose option decides dry_run |
| Config.VerboseOptionSetsDryRun | contrib/caldav/calcurse-caldav.py:350-351 | "DryRun = No" with "Verbose = Yes" gives a silent dry run |
| Config.Resolve | contrib/caldav/calcurse-caldav.py:345-351 | Corrected: dry_run comes from DryRun alone; verbose holds when -v is given or Verbose is yes |
| Config.VerboseOnlyAffectsVerbose | contrib/caldav/calcurse-caldav.py:350-351 | Corrected: the Verbose option never changes dry_run, and -v always makes a run verbose |
| Config.AgreeWithoutVerboseOption | contrib/caldav/calcurse-caldav.py:345-351 | The two readings agree when -v is given or no Verbose option is set |
| Text.RStrip | contrib/caldav/calcurse-caldav.py:39 | `rstrip()` keeps a prefix that does not end in whitespace and drops only whitespace |
| Text.StripChar | contrib/caldav/calcurse-caldav.py:263 | `strip('"')` leaves no quote at either end, and leaves a string without quotes alone |
| Text.StripKeepsMiddle | contrib/caldav/calcurse-caldav.py:263 | `strip('"')` keeps the slice after the leading run of quotes, with only quotes after it |
| Text.Split | contrib/caldav/calcurse-caldav.py:152 | `split(sep)` gives at least one piece, none holding the separator, and joining them back gives the string |
| Text.SplitAtFirst | contrib/caldav/calcurse-caldav.py:152 | Splitting at the first separator peels off the text before it |
| Version.VersionOfBanner | contrib/caldav/calcurse-caldav.py:62-73 | A banner "Calcurse <major>.<minor>[.<rest>][ <tail>]" yields major * 10 + minor |
| Version.UndottedBanner | contrib/caldav/calcurse-caldav.py:68-70 | A banner whose version token has no '.' ("Calcurse 4") is not recognised (None) |
| Version.ParseInt | contrib/caldav/calcurse-caldav.py:73 | `int()` succeeds exactly on ASCII digits with an optional sign, and gives their decimal value, unchanged after '+' and negated after '-' |
| Version.CalcurseVersion | contrib/caldav/calcurse-caldav.py:62-73 | Output that does not start with "Calcurse " is not recognised (None); the only failure is the ValueError of `int()` |
| Version.VersionGate | contrib/caldav/calcurse-caldav.py:370-376 | The gate passes exactly for a recognised version of at least 40 |
| Version.GateOnBanner | contrib/caldav/calcurse-caldav.py:62-73 | For a banner, the gate passes exactly when major * 10 + minor >= 40 |
| SyncDbFormat.Lines | contrib/caldav/calcurse-caldav.py:151 | The lines of a file carry no newline, and only an empty file has none |
| SyncDbFormat.ParseLine | contrib/caldav/calcurse-caldav.py:152 | A line parses exactly when its rstrip()ped text has two space-separated fields, which it returns |
| SyncDbFormat.ParseFrom | contrib/caldav/calcurse-caldav.py:149-153 | Parsing lines into a database succeeds exactly when every line parses, and keeps the entries already read |
| SyncDbFormat.Load | contrib/caldav/calcurse-caldav.py:142-155 | A missing file loads as the empty database; otherwise loading succeeds exactly when every line parses |
| SyncDbFormat.GetSyncDb | contrib/caldav/calcurse-caldav.py:142-155 | The line-by-line loop computes Load |
| SyncDbFormat.SaveText | contrib/caldav/calcurse-caldav.py:157-165 | The loop writes one "<etag> <hash>" line per entry, visiting every entry exactly once |
| SyncDbFormat.Serialize | contrib/caldav/calcurse-caldav.py:163-165 | The written text is empty exactly when there are no entries, and otherwise ends in a newline |
| SyncDbFormat.ParseRecord | contrib/caldav/calcurse-caldav.py:152 | The line written for an entry parses back to that entry |
| SyncDbFormat.RoundTrip | contrib/caldav/calcurse-caldav.py:142-165 | Loading what save wrote gives the same database back, for fields without spaces and newlines and a hash that does not end in whitespace |
| SyncDbFormat.EmptyHashIsNotStorable | contrib/caldav/calcurse-caldav.py:152 | An entry with an empty hash does not survive the round trip |
| Reconcile.Missing | contrib/caldav/calcurse-caldav.py:239 | The ETags to fetch are listed on the server, unknown to the database, and with the database cover the listing |
| Reconcile.Orphans | contrib/caldav/calcurse-caldav.py:240 | The orphaned ETags are in the database, not on the server, and with the listing cover the database |
| Reconcile.NewObjects | contrib/caldav/calcurse-caldav.py:199 | The new objects are local, unrecorded, and with the recorded ones cover the store |
| Reconcile.GoneObjects | contrib/caldav/calcurse-caldav.py:200 | The gone objects are recorded, not local, and with the store cover the recorded ones |
| Reconcile.Doomed | contrib/caldav/calcurse-caldav.py:216-234 | The entries push deletes are recorded for a gone object and listed on the server |
| Reconcile.Updated | contrib/caldav/calcurse-caldav.py:259-277 | Importing records adds exactly their ETags and leaves every other entry alone |
| Reconcile.UpdatedAt | contrib/caldav/calcurse-caldav.py:276 | The last record for an ETag decides its hash |
| Reconcile.PulledDb | contrib/caldav/calcurse-caldav.py:238-292 | After pull the database holds the old and the imported ETags less the orphans; old listed entries not re-imported keep their hash |
| Reconcile.PulledLocal | contrib/caldav/calcurse-caldav.py:238-292 | After pull the store holds only old and imported objects, and no object recorded for an orphan |
| Reconcile.ObjectHref | contrib/caldav/calcurse-caldav.py:168 | The href is the collection path, then the hash, then ".ics" |
| Reconcile.ObjectHrefInjective | contrib/caldav/calcurse-caldav.py:168 | Different objects get different hrefs |
| Reconcile.AtHref | contrib/caldav/calcurse-caldav.py:167-186 | The resources at an href are exactly those the collection stores there |
| Reconcile.Clobbered | contrib/caldav/calcurse-caldav.py:205-213 | The PUTs replace exactly the resources stored at a pushed object's href |
| Reconcile.Stored | contrib/caldav/calcurse-caldav.py:205-213 | After the PUTs the collection holds the unreplaced resources and the pushed ones, at old or pushed hrefs |
| Reconcile.NothingClobbered | contrib/caldav/calcurse-caldav.py:205-213 | When no pushed object already sits at its href, the PUTs replace nothing |
| Reconcile.PushedDb | contrib/caldav/calcurse-caldav.py:197-236 | After push the database holds the old and pushed ETags less the doomed ones, recording only old or pushed objects |
| Reconcile.PushedRemote | contrib/caldav/calcurse-caldav.py:197-236 | After push the collection holds the stored resources less the doomed ones |
| Reconcile.PullConverges | contrib/caldav/calcurse-caldav.py:238-292 | When the multiget answers the missing ETags, pull leaves the server's ETags in the database; old entries keep their hash and each record its import |
| Reconcile.PushConverges | contrib/caldav/calcurse-caldav.py:197-236 | When the database holds only ETags the server lists (as after a pull), push leaves it recording exactly the local objects |
| Reconcile.PassConverges | contrib/caldav/calcurse-caldav.py:426-430 | When the multiget answers the missing ETags and no object to push already sits at its href, pull then push ends with the database pairing every server resource with a local object |
| Reconcile.ConvergedPassIsIdle | contrib/caldav/calcurse-caldav.py:426-430 | A pass from a converged state changes nothing and counts nothing |
| Reconcile.IdlePull | contrib/caldav/calcurse-caldav.py:238-292 | From a converged state, pull imports and removes nothing |
| Reconcile.IdlePush | contrib/caldav/calcurse-caldav.py:197-236 | From a converged state, push pushes and deletes nothing |
| Reconcile.LocalDeletionReachesServer | contrib/caldav/calcurse-caldav.py:215-234 | An object deleted locally is deleted on the server and dropped from the database |
| Reconcile.RemoteDeletionReachesLocal | contrib/caldav/calcurse-caldav.py:279-290 | A resource deleted on the server has its local object removed and its entry dropped |
| Reconcile.EmptyListingRemovesRecorded | contrib/caldav/calcurse-caldav.py:108-109 | With an empty listing, the pull fetches nothing, orphans and drops every entry, and removes every recorded object from the local store |
| Reconcile.TwoWayOntoEmptyServer | contrib/caldav/calcurse-caldav.py:402-430 | Two-way initialisation against an empty server pushes every local object once and pulls nothing |
| Reconcile.OverwrittenEditIsLost | contrib/caldav/calcurse-caldav.py:205-213 | A server copy edited at a local object's href is imported and then overwritten by the push; the pass does not converge and the next pull removes the import |
| Sync.CompletePrefix | contrib/caldav/calcurse-caldav.py:259-267 | The import loop gets through exactly the records before the first one that lacks a getetag or calendar-data |
| Sync.TagsOf | contrib/caldav/calcurse-caldav.py:263 | The ETags of the records, one per record, each its getetag text with the quotes stripped |
| Sync.CollectionPath | contrib/caldav/calcurse-caldav.py:337 | The collection path ends in exactly one '/' |
| Sync.CollectionPathOf | contrib/caldav/calcurse-caldav.py:337 | The path is the configured one with only trailing slashes changed |
| Sync.CollectionPathIdempotent | contrib/caldav/calcurse-caldav.py:337 | Normalising the path twice is normalising it once |
| Sync.StartDb | contrib/caldav/calcurse-caldav.py:402-418 | Under --init the run starts from the empty database; otherwise from the file's contents, empty exactly when the file does not load with an entry |
| Sync.StartLocal | contrib/caldav/calcurse-caldav.py:404-405 | --init=keep-remote leaves the local store empty; every other mode keeps it |
| Sync.StartRemote | contrib/caldav/calcurse-caldav.py:406-407 | --init=keep-local leaves the collection empty; every other mode keeps it |
| Sync.Listing | contrib/caldav/calcurse-caldav.py:88-127 | The listing holds only the collection's resources: all of them, or none when the REPORT answer has an empty body (lines 108-109) |
| Sync.Session.constructor | contrib/caldav/calcurse-caldav.py:337-348 | A run starts with the given stores, the normalised path and the DryRun setting (the corrected reading of lines 345-351) |
| Sync.Session.ImportObject | contrib/caldav/calcurse-caldav.py:36-39 | An import adds one object under a hash the store did not hold |
| Sync.Session.RemoveObject | contrib/caldav/calcurse-caldav.py:59-60 | A removal drops the object from the local store |
| Sync.Session.WipeLocal | contrib/caldav/calcurse-caldav.py:29-34 | The local store is emptied, except in a dry run |
| Sync.Session.WipeRemote | contrib/caldav/calcurse-caldav.py:129-140 | The collection is emptied, except in a dry run |
| Sync.Session.PutObject | contrib/caldav/calcurse-caldav.py:167-186 | A PUT replaces whatever the server stored at path + hash + ".ics" by one resource there, under an ETag new to the server, the database and every ETag handed out before |
| Sync.Session.DeleteRemote | contrib/caldav/calcurse-caldav.py:188-195 | A DELETE drops the resource with that ETag |
| Sync.Session.ImportRecord | contrib/caldav/calcurse-caldav.py:263-277 | One round of the import loop adds the record's unquoted ETag to the ETags so far, imports one fresh object and records it under that ETag |
| Sync.Session.ImportRecords | contrib/caldav/calcurse-caldav.py:259-277 | The import loop stops at the first incomplete record; outside a dry run it records every import before it |
| Sync.Session.CheckRecords | contrib/caldav/calcurse-caldav.py:259-273 | A dry-run import loop stops at the first incomplete record |
| Sync.Session.ImportAll | contrib/caldav/calcurse-caldav.py:259-277 | The import loop imports and records each complete record before the first incomplete one, under fresh hashes |
| Sync.Session.RemoveOrphans | contrib/caldav/calcurse-caldav.py:279-290 | Each orphaned entry is dropped and its object removed, and the count is the number of orphans |
| Sync.Session.Pull | contrib/caldav/calcurse-caldav.py:238-292 | Pull fails without a response or on an incomplete record; otherwise the database and store are PulledDb and PulledLocal, and a dry run changes nothing |
| Sync.Session.PullRecords | contrib/caldav/calcurse-caldav.py:257-292 | Imports are kept on failure and nothing is removed; on success the pull is complete with counts (records, orphans) |
| Sync.Session.PushOne | contrib/caldav/calcurse-caldav.py:205-213 | One round of the PUT loop extends the pushed entries by the new ETag: the database gains it and the collection becomes Stored of the extended entries |
| Sync.Session.PushNew | contrib/caldav/calcurse-caldav.py:204-213 | Every new object gets one fresh ETag and a database entry; the collection is Stored (the PUTs replace what sat at their hrefs); the count is the number of new objects |
| Sync.Session.RemoveTags | contrib/caldav/calcurse-caldav.py:222-234 | The listed ETags among those given are deleted on the server and dropped from the database |
| Sync.Session.RemoveGone | contrib/caldav/calcurse-caldav.py:215-234 | The listed entries of every gone object are removed on both sides, and counted |
| Sync.Session.Push | contrib/caldav/calcurse-caldav.py:197-236 | Push leaves PushedDb and PushedRemote with counts (new objects, doomed entries); a dry run changes nothing |
| Sync.Session.SaveSyncDb | contrib/caldav/calcurse-caldav.py:157-165 | The file is set to the serialised database, except in a dry run |
| Sync.Session.CheckVersion | contrib/caldav/calcurse-caldav.py:370-376 | The run continues exactly when the version output passes the gate |
| Sync.Session.LoadSyncDb | contrib/caldav/calcurse-caldav.py:410-418 | Outside --init, the run continues exactly when the database file loads and is not empty |
| Sync.Session.Start | contrib/caldav/calcurse-caldav.py:369-418 | The run starts exactly when the gate passes and there is a database or --init is given; the stores are wiped as the init mode says |
| Sync.Session.SyncPass | contrib/caldav/calcurse-caldav.py:424-433 | Pull and push against the given listing, then save, compose to Synced; a failed pull leaves the server and the file unchanged |
| Sync.Session.Run | contrib/caldav/calcurse-caldav.py:369-433 | A run succeeds exactly when the gate passes, there is a database or --init, and the multiget is complete; it then reaches Synced from the started state; a dry run changes neither store nor the file |
| Events.StrCmp | src/event.c:90 | The sign of strcmp is 0 exactly for equal strings |
| Events.StrCmpFlip | src/event.c:90 | Swapping the strings flips the sign |
| Events.StrCmpTrans | src/event.c:90 | The string order is transitive |
| Events.KeyCmp | src/event.c:83-91 | The earlier day comes first; equal days compare the messages; 0 exactly for equal keys |
| Events.KeyCmpFlip | src/event.c:83-91 | event_cmp is antisymmetric |
| Events.KeyCmpTrans | src/event.c:83-91 | event_cmp is transitive |
| Events.Event.constructor | src/event.c:94-102 | A new event holds the given message, note, day and id |
| Events.Dup | src/event.c:56-70 | A null input fails with "null pointer"; otherwise the copy is a new event with the same fields |
| Events.InsertPos | src/event.c:104 | A sorted insertion goes after every event that compares less or equal and before the first that compares greater |
| Events.InsertPosIs | src/event.c:104 | Only one position meets those two conditions |
| Events.InsertKeepsSorted | src/event.c:104 | A sorted insertion keeps a sorted list sorted |
| Events.IndexOf | src/event.c:215 | The first item that holds the event |
| Events.InsertedValid | src/event.c:104 | An insertion keeps the list sorted and distinct and adds exactly the event |
| Events.RemovedValid | src/event.c:220 | A removal keeps the list sorted and distinct and removes exactly the event |
| Events.InsertThenRemove | src/event.c:194-203 | Deleting an event just inserted gives the list back |
| Events.Keeps | src/event.c:185-205 | An event is kept exactly when the filter condition equals the invert flag |
| Events.InvertFlips | src/event.c:201 | Inverting the filter keeps exactly the events it rejects |
| Events.OpenFilterKeeps | src/event.c:185-193 | A filter with no pattern and no bounds keeps every event, unless inverted |
| Events.Excluded | src/event.c:186-193 | The first part of the condition fails exactly when the event passes the type, the pattern and all four bounds |
| Events.Condition | src/event.c:186-197 | The condition holds whenever the first part does or a hash pattern does not match; without a hash pattern, or with one that matches, it is the first part |
| Events.CutAtNewline | src/event.c:168-171 | The description is the line up to its first newline |
| Events.CutAtNewlineIdempotent | src/event.c:168-171 | Cutting twice is cutting once |
| Events.EventList.constructor | src/event.c:72-75 | The list starts empty and valid |
| Events.EventList.InsertSorted | src/event.c:104 | The event is inserted at InsertPos, and the list stays sorted and distinct |
| Events.EventList.NewEvent | src/event.c:94-107 | A fresh event with the given fields joins the list in order |
| Events.EventList.Delete | src/event.c:213-221 | An event not in the list fails with "no such appointment"; otherwise its item is removed and the list stays sorted |
| Events.EventList.Paste | src/event.c:223-227 | The event takes the new day and rejoins the list in order |
| Events.EventList.Scan | src/event.c:152-210 | Invalid date or time, a failed read and a failed mktime return their messages and leave the list alone; otherwise the event joins the list exactly when the filter keeps it |
| Events.EventList.Load | src/event.c:184-209 | The event joins the list exactly when there is no filter or the filter keeps it |
| Events.EventList.LoadHashed | src/event.c:194-205 | With a hash pattern, the event stays in the list exactly when the whole condition equals the invert flag, and is deleted otherwise |

## Left out

- HTTP, TLS and the XML of the requests and responses: the listing is `Sync.Listing` of the collection, with the empty-body case as an input, and the parsed multiget records are an input.
- `get_hrefmap`'s exit on a response without an ETag or href (lines 115-122) and its unused `uid` filter are not modelled.
- The subprocess calls to calcurse: the version output is an input; the store is a set of hashes.
- SHA-1 object hashes and server-assigned ETags: `FreshName` hands out a name the store did not hold.
- Sync.Session.PutObject: does not model the polling for a missing ETag header (`hrefmap.keys()[0]`, lines 180-183).
- Sync.Session.PutObject: does not model a PUT that gets no response and records None.
- Sync.Session.DeleteRemote: the If-Match precondition of the DELETE is not modelled, so there is no concurrent writer.
- The command line and configuration file parsing beyond DryRun and Verbose: host name, credentials, InsecureSSL and the binary path.
- The lock file: creation, the leftover-lock error and its removal (lines 378-383, 437-439).
- Verbose printing and the dry-run disclaimer.
- In dry runs the loops only print. They are modelled as returning with nothing changed; the import loop's stop at an incomplete record is kept (`CheckRecords`).
- Version.CalcurseVersion: `int()` is modelled on an optional sign and ASCII digits. Other forms Python accepts (surrounding whitespace, underscores, non-ASCII digits) are treated as a ValueError.
- SyncDbFormat.Lines: `readlines()` is modelled on '\n' only, not universal newlines.
- Sync.PropNode: an ETag element with no text (`etagnode.text` None) is not modelled.
- Sync.PropNode: calendar data with no text (`cdatanode.text` None, line 268) is not modelled; `calcurse_import` would fail on it.
- Sync.Session.ImportObject: `calcurse_import` returns the rstrip()ped `--list-imported` output, which may be empty or hold several hashes for one body. The model always yields exactly one fresh hash.
- Sync.Session.constructor: takes dry_run from the corrected `Config.Resolve`, not from lines 350-351 as written (see Findings). With -v absent and a Verbose option set, the script's own dry_run is `Config.ResolveAsWritten`.
- Sync.Session.LoadSyncDb: its contract does not name the message of the empty-database error.
- `event_tostr`, `event_hash`, `event_inday`, `event_write`, `event_dummy`, `event_free` and `event_llist_free`: printing, hashing and freeing.
- Memory management (`mem_malloc`, `mem_strdup`, `mem_free`): the fields are values.
- `check_date`, `check_time`, `fgets`, `mktime` and `ENDOFDAY` are inputs to `Scan`.
- `regexec` and `hash_matches` are inputs to `Scan`, as the booleans they yield.
- The `BUFSIZ` truncation of `fgets` is not modelled.
- The filter's type mask is the single boolean of its event bit.
- The linked-list macros are not part of this model (calcurse.h and llist.c). `LLIST_ADD_SORTED` is modelled as insertion before the first greater element (`InsertPos`), and `LLIST_FIND_FIRST` as `IndexOf`.
- `EXIT`/`EXIT_IF`, which end the program, are modelled as `Fail`/`Failure` results.
- Events.EventList.Paste: requires the event not to be in the list (a pasted event has been cut), so pasting an event twice is not modelled.
- Events.EventList.InsertSorted: requires the event not to be in the list, for the same reason.
- Events.StrCmp: only the sign of strcmp is modelled.

## Findings

| source | as written | input that shows it | evidently intended | confidence | as-written member | corrected member |
|---|---|---|---|---|---|---|
| contrib/caldav/calcurse-caldav.py:350-351 | Without -v, the Verbose option is stored into dry_run | "DryRun = No" and "Verbose = Yes", no -v: a silent dry run | The Verbose option sets verbose, and dry_run comes from DryRun alone | high, not executed | Config.VerboseOptionSetsDryRun | Config.VerboseOnlyAffectsVerbose |
