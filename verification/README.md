# ESLTVPlayer decision core in Dafny

ESLTVPlayer is an Android TV video player. It has a file browser confined
to the storage root, a player screen with resume and debounced seeking, a
resume-position table, a preference store, a settings screen and an
overlay bar drawn over the video. This project models the decision logic
underneath those screens as pure functions over immutable datatypes, and
proves what each decision guarantees.

One module follows each source component:

- `FileManager`: directory listing with the video-extension test and the
  "directories first, then lower-cased name" order; `formatDuration`;
  the unit choice of `formatFileSize`; storage-root discovery.
- `PlaybackDao` and `PlaybackManager`: the `playback_history` table and
  the manager's upsert by path.
  - The table is a sequence of rows in rowid order with an AUTOINCREMENT
    high-water mark.
  - Id 0 asks for a fresh id.
- `Settings` and `SettingsManager`: the record defaults and the
  `SharedPreferences` store.
  - The store is a map from key to a typed value.
  - A read of the wrong type, an unknown view-mode name and unreadable
    overlay JSON are the three ways `getAppSettings` throws. They are
    `Err` results.
- `OverlayJson`: the exact text Gson writes for `OverlayConfig`, a reader
  for it, and the proof that decoding an encoding gives the configuration
  back. Whether the store round-trips the overlay rests on this.
- `SettingsEditor`: the settings screen.
  - Each button is a clamped step on one field in Kotlin `Int` arithmetic,
    which wraps around.
  - Also modelled: the colour cycle mod 5, the colour index on load, and
    the record BACK saves.
- `OverlayManager`: the overlay's create, show, hide, toggle, update and
  remove transitions over a container of view ids; the alpha and margin
  computations.
- `Browser`: the browser screen as a state machine.
  - Root confinement is a string-prefix test.
  - Also modelled: `isAtRoot`, the whitespace-token directory filter, the
    "Go Back" row, and directory clicks and BACK.
- `JavaFile`: the parts of `java.io.File` the browser relies on (path
  normalisation and `getParent` on Unix).
- `Player`: the player screen.
  - Modelled: the resume threshold and prompt, the checkpoint and clear
    rules, the clamped seek targets, and the 500 ms seek debounce.
  - Repeated LEFT and RIGHT events are swallowed.
- `FileAdapter`: what a list row shows.
- Support modules:
  - `Wrappers`: nullable and result types.
  - `KotlinInt`: 32-bit wrap and division that truncates toward zero.
  - `Text`: lower-casing, trimming, whitespace tokens, decimal text.
  - `Sorting`: insertion sort under a total preorder.
  - `VideoFiles`: the listing record.

The browser, player and settings screens read and write the store as
written, through `getAppSettings` and `saveAppSettings`. Those never store
or read the directory filter (SettingsManager.kt lines 38-63), although
`AppSettings` declares it and the settings screen hands it over on BACK.
So the browser's listing is never filtered (`Browser.ListingNeverFiltered`)
and the filter box reopens empty (`SettingsEditor.SaveThenLoad`). The
corrected store is `SettingsManager.GetAppSettingsFixed` with
`SaveAppSettingsFixed`, and the settings screen over it is
`SettingsEditor.LoadSettingsFixed` with `SaveSettingsFixed`; see the
findings below.

Other behaviour worth knowing before reading the model:
- `updateOverlay` hides a visible overlay (OverlayManager.kt lines
  95-100); it is the second finding.
- BACK in the browser moves to the parent of the current path, bounded by
  the root (BrowserActivity.kt lines 244-255). No history of visited
  directories is kept.

## Model

All source paths below are under `app/src/main/java/com/xiaomi/tvplayer/`.

| member | source | states |
|---|---|---|
| FileManager.Extension | app/src/main/java/com/xiaomi/tvplayer/manager/FileManager.kt:66-69 | the extension is the text after the last dot and holds no dot; it is "" when the name has no dot; otherwise the name is stem, dot, extension |
| FileManager.ToVideoFile | app/src/main/java/com/xiaomi/tvplayer/manager/FileManager.kt:35-56 | a directory row has size 0 and no duration; a video row carries the file length and the probed duration; path, name, date and kind come from the entry |
| FileManager.KeptRows | app/src/main/java/com/xiaomi/tvplayer/manager/FileManager.kt:34-57 | a row is produced exactly for the children that are directories or have a recognised video extension |
| FileManager.ListingLeIsTotalPreorder | app/src/main/java/com/xiaomi/tvplayer/manager/FileManager.kt:60 | the comparator "directories first, then lower-cased name" is total and transitive, so the sort is well defined |
| FileManager.GetFilesInDirectory | app/src/main/java/com/xiaomi/tvplayer/manager/FileManager.kt:26-61 | a missing path or a non-directory gives the empty list; otherwise the result is a permutation of the kept rows, sorted by the comparator |
| FileManager.ListingMembers | app/src/main/java/com/xiaomi/tvplayer/manager/FileManager.kt:34-57 | a row is in the listing if and only if it comes from a child that is a directory or a recognised video file |
| FileManager.ListingShape | app/src/main/java/com/xiaomi/tvplayer/manager/FileManager.kt:34-60 | every directory precedes every file; within each group names do not decrease when lower-cased; directory rows have size 0 and no duration |
| FileManager.DurationFields | app/src/main/java/com/xiaomi/tvplayer/manager/FileManager.kt:143-145 | for ms >= 0: hours >= 0, minutes and seconds in 0..59, and h·3600000 + m·60000 + s·1000 = ms − ms mod 1000 |
| FileManager.FormatDurationReadsBack | app/src/main/java/com/xiaomi/tvplayer/manager/FileManager.kt:142-152 | the label reads back as three colon-separated fields, each zero padded to at least two digits, iff hours > 0, and as two fields otherwise; the fields are the duration's hours, minutes and seconds |
| FileManager.FormatDurationValue | app/src/main/java/com/xiaomi/tvplayer/manager/FileManager.kt:143-151 | the label of ms >= 0 denotes ms rounded down to whole seconds |
| FileManager.FormatFileSize | app/src/main/java/com/xiaomi/tvplayer/manager/FileManager.kt:126-137 | below 1024 the label is the exact count, which reads back, followed by " B"; otherwise the unit is the largest of GB, MB, KB that the size reaches |
| FileManager.Distinct | app/src/main/java/com/xiaomi/tvplayer/manager/FileManager.kt:120 | `distinct()` has no repeats and the same members as its input, and lists them in the order of their first occurrence |
| FileManager.UsbPaths | app/src/main/java/com/xiaomi/tvplayer/manager/FileManager.kt:101-108 | exactly the `/mnt/` children that are directories whose name starts with "usb", case-insensitively |
| FileManager.VolumePaths | app/src/main/java/com/xiaomi/tvplayer/manager/FileManager.kt:110-118 | exactly the `/storage/` children that are directories not named "emulated" or "self", case-insensitively |
| FileManager.GetStorageLocations | app/src/main/java/com/xiaomi/tvplayer/manager/FileManager.kt:89-121 | no path twice; a path is listed iff it is a fixed root that is an existing directory, a USB drive, or a storage volume; the order is /sdcard/, the emulated root, the external root, then USB drives, then volumes |
| FileAdapter.UpdateFiles | app/src/main/java/com/xiaomi/tvplayer/ui/browser/FileAdapter.kt:75-78 | the item count becomes the new list's length, and every position binds the new row under the unchanged switches |
| FileAdapter.Bind | app/src/main/java/com/xiaomi/tvplayer/ui/browser/FileAdapter.kt:37-60 | folder icon iff a directory; size shown iff the size switch is on and not a directory; duration shown iff the duration switch is on, a duration is known and not a directory; the labels are the formatted values |
| JavaFile.Normalize | app/src/main/java/com/xiaomi/tvplayer/ui/browser/BrowserActivity.kt:168 | `File(path)`'s normal form has no doubled separator and no trailing one except for "/", is empty only for "", and is absolute iff the input is |
| JavaFile.NormalizeIdempotent | app/src/main/java/com/xiaomi/tvplayer/ui/browser/BrowserActivity.kt:168 | normalising twice is normalising once |
| JavaFile.GetParent | app/src/main/java/com/xiaomi/tvplayer/ui/browser/BrowserActivity.kt:168-169 | `parentFile` is a proper prefix of the path, and is absent exactly for "/" and for a relative name without a separator |
| JavaFile.AbsolutePath | app/src/main/java/com/xiaomi/tvplayer/ui/browser/BrowserActivity.kt:171 | the absolute path of an absolute path is its normal form |
| JavaFile.ParentOfAbsolute | app/src/main/java/com/xiaomi/tvplayer/ui/browser/BrowserActivity.kt:245-247 | an absolute path has a parent iff it is not "/", and the parent is absolute, normal and a strictly shorter prefix |
| Settings.ViewModeOf | app/src/main/java/com/xiaomi/tvplayer/manager/SettingsManager.kt:42-44 | `valueOf` succeeds exactly on "GRID" and "LIST", and the mode's name is the input |
| Settings.ViewModeNameRoundTrip | app/src/main/java/com/xiaomi/tvplayer/manager/SettingsManager.kt:57 | the name stored for every mode reads back as that mode |
| SettingsManager.GetInt | app/src/main/java/com/xiaomi/tvplayer/manager/SettingsManager.kt:39-40 | an absent key gives the default; a present key reads iff it holds an Int, and then gives its value |
| SettingsManager.GetBool | app/src/main/java/com/xiaomi/tvplayer/manager/SettingsManager.kt:46-48 | an absent key gives the default; a present key reads iff it holds a Boolean, and then gives its value |
| SettingsManager.GetString | app/src/main/java/com/xiaomi/tvplayer/manager/SettingsManager.kt:31 | an absent key gives the default, which may be null; a present key reads iff it holds a String |
| SettingsManager.GetStringOr | app/src/main/java/com/xiaomi/tvplayer/manager/SettingsManager.kt:45 | `getString(k, d) ?: d`: the default when absent, the stored String otherwise, an error for another type |
| SettingsManager.GetOverlayConfig | app/src/main/java/com/xiaomi/tvplayer/manager/SettingsManager.kt:70-77 | no stored JSON gives `OverlayConfig()`; any configuration read has every Int field in range |
| SettingsManager.GetAppSettings | app/src/main/java/com/xiaomi/tvplayer/manager/SettingsManager.kt:30-50 | settings that read successfully carry a valid overlay |
| SettingsManager.ReadPlainSettings | app/src/main/java/com/xiaomi/tvplayer/manager/SettingsManager.kt:38-49 | the directory filter is never read and comes back "" |
| SettingsManager.GetLastDirectory | app/src/main/java/com/xiaomi/tvplayer/manager/SettingsManager.kt:83-85 | "/sdcard/" when nothing was saved |
| SettingsManager.GetAppSettingsOkIff | app/src/main/java/com/xiaomi/tvplayer/manager/SettingsManager.kt:30-50 | `getAppSettings` returns iff every key is absent or of its type, the view mode is GRID or LIST, and the overlay JSON parses |
| SettingsManager.EmptyPrefsGiveDefaults | app/src/main/java/com/xiaomi/tvplayer/manager/SettingsManager.kt:30-50 | an empty store reads as `AppSettings()` (seek 5/5, default overlay, GRID, "/sdcard/", three switches on) and last directory "/sdcard/" |
| SettingsManager.SaveThenGet | app/src/main/java/com/xiaomi/tvplayer/manager/SettingsManager.kt:52-64 | reading after a save gives the saved settings with the directory filter replaced by "" |
| SettingsManager.SavedReads | app/src/main/java/com/xiaomi/tvplayer/manager/SettingsManager.kt:52-61 | each getter reads back the value `saveAppSettings` put under its key |
| SettingsManager.SeekGettersAgree | app/src/main/java/com/xiaomi/tvplayer/manager/SettingsManager.kt:66-68 | the two seek getters return the same values as the fields of `getAppSettings` |
| SettingsManager.PlainSettingsFrame | app/src/main/java/com/xiaomi/tvplayer/manager/SettingsManager.kt:38-49 | two stores that agree on the non-overlay settings keys read the same plain settings |
| SettingsManager.SettingsFrame | app/src/main/java/com/xiaomi/tvplayer/manager/SettingsManager.kt:30-50 | `getAppSettings` depends only on the keys `saveAppSettings` writes |
| SettingsManager.OverlayRoundTrip | app/src/main/java/com/xiaomi/tvplayer/manager/SettingsManager.kt:70-81 | after `saveOverlayConfig(c)`, `getOverlayConfig` gives c, and `getAppSettings` gives c as overlay with every other field unchanged |
| SettingsManager.LastDirectoryRoundTrip | app/src/main/java/com/xiaomi/tvplayer/manager/SettingsManager.kt:83-89 | the last directory reads back what was saved, and saving it leaves the settings as they read before |
| SettingsManager.SaveKeepsLastDirectory | app/src/main/java/com/xiaomi/tvplayer/manager/SettingsManager.kt:52-64 | saving the settings never changes the last directory |
| SettingsManager.DirectoryFilterLost | app/src/main/java/com/xiaomi/tvplayer/manager/SettingsManager.kt:52-64 | as written, a saved filter "movies" reads back as "", so the saved settings are not what is read |
| SettingsManager.GetAppSettingsFixed | app/src/main/java/com/xiaomi/tvplayer/manager/SettingsManager.kt:30-50 | the corrected read succeeds only when the original does, and differs from it only in the filter |
| SettingsManager.FixedSaveThenGet | app/src/main/java/com/xiaomi/tvplayer/manager/SettingsManager.kt:52-64 | with the filter stored, every field survives a save followed by a read |
| SettingsManager.FilterKeyFrame | app/src/main/java/com/xiaomi/tvplayer/manager/SettingsManager.kt:30-50 | writing the filter key leaves the original read unchanged, and the corrected read takes the filter from it |
| SettingsManager.FixedAgreesWithoutFilter | app/src/main/java/com/xiaomi/tvplayer/manager/SettingsManager.kt:30-50 | on a store holding no filter, the corrected read equals the original |
| OverlayJson.Decode | app/src/main/java/com/xiaomi/tvplayer/manager/SettingsManager.kt:33 | any configuration Gson reads has every Int field in 32-bit range |
| OverlayJson.ReadObjectEncode | app/src/main/java/com/xiaomi/tvplayer/manager/SettingsManager.kt:56 | the object text written for a configuration reads back as its seven members, in declaration order |
| OverlayJson.DecodeEncode | app/src/main/java/com/xiaomi/tvplayer/manager/SettingsManager.kt:80 | decoding the JSON written for a valid configuration gives the configuration back |
| OverlayJson.SetAllFields | app/src/main/java/com/xiaomi/tvplayer/manager/SettingsManager.kt:73 | applying a configuration's members to any starting configuration gives that configuration |
| OverlayJson.EmptyObjectIsDefault | app/src/main/java/com/xiaomi/tvplayer/manager/SettingsManager.kt:73 | "{}" reads as `OverlayConfig()` |
| OverlayManager.Alpha | app/src/main/java/com/xiaomi/tvplayer/manager/OverlayManager.kt:44 | alpha lies in 0..255; for opacity in 0..100 it is ⌊opacity·255/100⌋; without Int overflow, above 100 gives 255 and below 0 gives 0 |
| OverlayManager.AlphaEnds | app/src/main/java/com/xiaomi/tvplayer/manager/OverlayManager.kt:44 | opacity 0 is fully transparent (0) and opacity 100 fully opaque (255) |
| OverlayManager.Background | app/src/main/java/com/xiaomi/tvplayer/manager/OverlayManager.kt:44-51 | the background keeps the configured colour's low 24 bits and puts the alpha in the top byte |
| OverlayManager.Params | app/src/main/java/com/xiaomi/tvplayer/manager/OverlayManager.kt:28-41 | the size is the configured size; each margin is the coordinate when it is >= 0, else the default 0 |
| OverlayManager.RemoveOverlay | app/src/main/java/com/xiaomi/tvplayer/manager/OverlayManager.kt:105-111 | afterwards there is no view and the overlay is not visible; the old view has left the container and nothing else has |
| OverlayManager.CreateOverlay | app/src/main/java/com/xiaomi/tvplayer/manager/OverlayManager.kt:23-62 | a new hidden view with the configured size, margins and background is in the container exactly once; the previous view is gone; the other children stay |
| OverlayManager.ShowOverlay | app/src/main/java/com/xiaomi/tvplayer/manager/OverlayManager.kt:67-70 | the flag becomes true even with no view, and a view present becomes visible |
| OverlayManager.HideOverlay | app/src/main/java/com/xiaomi/tvplayer/manager/OverlayManager.kt:75-78 | the flag becomes false even with no view, and a view present becomes hidden |
| OverlayManager.ToggleOverlay | app/src/main/java/com/xiaomi/tvplayer/manager/OverlayManager.kt:83-90 | the flag flips and the new value is returned |
| OverlayManager.VisibilityKeepsAttached | app/src/main/java/com/xiaomi/tvplayer/manager/OverlayManager.kt:67-90 | show, hide and toggle keep the view attached once and its visibility equal to the flag |
| OverlayManager.ToggleTwice | app/src/main/java/com/xiaomi/tvplayer/manager/OverlayManager.kt:83-90 | two toggles restore the manager exactly |
| OverlayManager.CreateReplaces | app/src/main/java/com/xiaomi/tvplayer/manager/OverlayManager.kt:23-25 | creating over an attached overlay removes the old view entirely and holds the new one exactly once |
| OverlayManager.UpdateOverlayHides | app/src/main/java/com/xiaomi/tvplayer/manager/OverlayManager.kt:95-100 | as written, the overlay is hidden after an update whatever it was before |
| OverlayManager.UpdateOverlayHidesExample | app/src/main/java/com/xiaomi/tvplayer/manager/OverlayManager.kt:95-100 | an overlay shown and then updated is no longer visible |
| OverlayManager.UpdateOverlayFixed | app/src/main/java/com/xiaomi/tvplayer/manager/OverlayManager.kt:95-100 | the corrected update leaves the flag and the new view's visibility as they were before, with the new configuration |
| PlaybackDao.GetPlaybackRecord | app/src/main/java/com/xiaomi/tvplayer/data/database/PlaybackDao.kt:16-17 | the result is a row of the table for the path, and null iff the table has no row for it |
| PlaybackDao.RowsForMembers | app/src/main/java/com/xiaomi/tvplayer/data/database/PlaybackDao.kt:16-17 | the rows `WHERE filePath = p` are exactly the table's rows naming p |
| PlaybackDao.InsertPlaybackRecord | app/src/main/java/com/xiaomi/tvplayer/data/database/PlaybackDao.kt:19-20 | id 0 gets a fresh id above every id used; another id replaces its row or adds one; the row is then found under the returned id and no other id's row changes |
| PlaybackDao.InsertWithFreshId | app/src/main/java/com/xiaomi/tvplayer/data/model/PlaybackRecord.kt:11-12 | an auto-generated id exceeds the high-water mark, was unused, and adds exactly one row |
| PlaybackDao.InsertWithNewId | app/src/main/java/com/xiaomi/tvplayer/data/database/PlaybackDao.kt:19-20 | a record with an unused explicit id is added under that id, one row more, nothing else changed |
| PlaybackDao.UpdatePlaybackRecord | app/src/main/java/com/xiaomi/tvplayer/data/database/PlaybackDao.kt:22-23 | the row with the record's id becomes the record, no row when the id is absent, and every other id's row is unchanged |
| PlaybackDao.DeletePlaybackRecord | app/src/main/java/com/xiaomi/tvplayer/data/database/PlaybackDao.kt:25-26 | exactly the rows for the path are removed, and the lookup then finds none |
| PlaybackDao.GetAllPlaybackRecords | app/src/main/java/com/xiaomi/tvplayer/data/database/PlaybackDao.kt:28-29 | all rows, each exactly as often as in the table, with lastPlayed non-increasing |
| PlaybackDao.ClearAllRecords | app/src/main/java/com/xiaomi/tvplayer/data/database/PlaybackDao.kt:31-32 | the table is empty and the AUTOINCREMENT mark is kept |
| PlaybackManager.SavePlaybackPosition | app/src/main/java/com/xiaomi/tvplayer/manager/PlaybackManager.kt:20-41 | the path then has a record with the new position, duration and time; an existing record keeps its id and the table its size; otherwise exactly one row is added; other paths' rows are unchanged; at most one record per path is preserved |
| PlaybackManager.SaveExisting | app/src/main/java/com/xiaomi/tvplayer/manager/PlaybackManager.kt:22-30 | the update branch rewrites the path's record in place, keeping its id and path |
| PlaybackManager.SaveNew | app/src/main/java/com/xiaomi/tvplayer/manager/PlaybackManager.kt:31-39 | the insert branch adds exactly one record, the path's only one, with the given path, position and duration and `lastPlayed` = now |
| PlaybackManager.ClearPlaybackPosition | app/src/main/java/com/xiaomi/tvplayer/manager/PlaybackManager.kt:55-59 | afterwards the path has no record and every other path keeps its rows |
| PlaybackManager.IsVideoCompleted | app/src/main/java/com/xiaomi/tvplayer/manager/PlaybackManager.kt:64-68 | completed iff duration > 0 and 100·position >= 95·duration |
| PlaybackManager.RepeatedSavesKeepOneRecord | app/src/main/java/com/xiaomi/tvplayer/manager/PlaybackManager.kt:20-41 | any number of saves of one path leaves at most one record for it and grows the table by at most one |
| SettingsEditor.IndexOfColor | app/src/main/java/com/xiaomi/tvplayer/ui/settings/SettingsActivity.kt:142 | the first index of the colour in the list, and -1 exactly when it is not listed |
| SettingsEditor.LoadSettings | app/src/main/java/com/xiaomi/tvplayer/ui/settings/SettingsActivity.kt:127-149 | the screen loads iff `getAppSettings` succeeds, and the filter box then always opens empty |
| SettingsEditor.LoadSettingsFixed | app/src/main/java/com/xiaomi/tvplayer/ui/settings/SettingsActivity.kt:127-149 | over the corrected store, the screen loads iff the store reads, and the filter box shows the stored filter |
| SettingsEditor.Apply | app/src/main/java/com/xiaomi/tvplayer/ui/settings/SettingsActivity.kt:151-212 | every click, switch or typed filter keeps the colour index in the list and the overlay fields 32-bit |
| SettingsEditor.ApplyAll | app/src/main/java/com/xiaomi/tvplayer/ui/settings/SettingsActivity.kt:151-212 | any sequence of inputs keeps that invariant |
| SettingsEditor.FinalSettings | app/src/main/java/com/xiaomi/tvplayer/ui/settings/SettingsActivity.kt:221-228 | the saved record has the default view mode, default directory and scan switch |
| SettingsEditor.OnKeyDown | app/src/main/java/com/xiaomi/tvplayer/ui/settings/SettingsActivity.kt:220-248 | the screen saves and finishes iff the key is BACK; what BACK stores then reads back as the screen's settings with the hidden fields at their defaults and the filter ""; the last directory is untouched |
| SettingsEditor.DefaultsInRange | app/src/main/java/com/xiaomi/tvplayer/data/model/OverlayConfig.kt:11-14 | the default settings lie within the button ranges, and the default 1400×55 bar at (380, 940) lies within the 3840×2160 screen |
| SettingsEditor.PressKeepsRange | app/src/main/java/com/xiaomi/tvplayer/ui/settings/SettingsActivity.kt:152-212 | no click takes a value out of its range: seeks 1..60, X 0..3840, Y 0..2160, width 10..3840, height 5..2160, opacity 0..100 |
| SettingsEditor.IncreasePastEdge | app/src/main/java/com/xiaomi/tvplayer/ui/settings/SettingsActivity.kt:162-165 | from beyond the right edge, "increase X" clamps to 3840, unless adding 10 overflows Int and wraps to a negative value |
| SettingsEditor.PressChangesOneField | app/src/main/java/com/xiaomi/tvplayer/ui/settings/SettingsActivity.kt:152-212 | a click changes at most the one field its button is for; `enabled`, the switches and the filter never change |
| SettingsEditor.CycleColorShowsColor | app/src/main/java/com/xiaomi/tvplayer/ui/settings/SettingsActivity.kt:198-202 | after a colour click the index has advanced by one mod 5 and the colour is the one at that index |
| SettingsEditor.PressesAdvance | app/src/main/java/com/xiaomi/tvplayer/ui/settings/SettingsActivity.kt:198-202 | n colour clicks advance the index by n mod 5 with the colour following it, so every five clicks return to the start |
| SettingsEditor.UnknownColorKept | app/src/main/java/com/xiaomi/tvplayer/ui/settings/SettingsActivity.kt:142-143 | a stored colour not in the list shows as index 0 but is kept, and the next click selects Red |
| SettingsEditor.UnknownColorShowsBlack | app/src/main/java/com/xiaomi/tvplayer/ui/settings/SettingsActivity.kt:142-143 | the same for the screen built from any settings record |
| SettingsEditor.LoadThenSave | app/src/main/java/com/xiaomi/tvplayer/ui/settings/SettingsActivity.kt:220-229 | BACK right after opening stores what `getAppSettings` read, except that view mode, default directory and scan switch revert to their defaults |
| SettingsEditor.SaveThenLoad | app/src/main/java/com/xiaomi/tvplayer/ui/settings/SettingsActivity.kt:127-149 | after BACK the next load shows the seek times, overlay, switches and a listed colour again, with the overlay's `enabled` taken from the switch; the typed filter is lost and the box shows "" |
| SettingsEditor.LoadThenSaveFixed | app/src/main/java/com/xiaomi/tvplayer/ui/settings/SettingsActivity.kt:220-229 | with the corrected store, BACK right after opening stores what was read, the filter included |
| SettingsEditor.SaveThenLoadFixed | app/src/main/java/com/xiaomi/tvplayer/ui/settings/SettingsActivity.kt:127-149 | with the corrected store, the next load shows everything the user set, the typed filter included |
| Browser.StartPath | app/src/main/java/com/xiaomi/tvplayer/ui/browser/BrowserActivity.kt:99-108 | the start path is the saved one iff it is non-empty, an existing directory and under the root; otherwise the root |
| Browser.Confine | app/src/main/java/com/xiaomi/tvplayer/ui/browser/BrowserActivity.kt:152-154 | a path with the root as prefix is kept, any other becomes the root |
| Browser.FilterTokens | app/src/main/java/com/xiaomi/tvplayer/ui/browser/BrowserActivity.kt:157-162 | every token is non-empty and lower-case |
| Browser.FilterTokensIff | app/src/main/java/com/xiaomi/tvplayer/ui/browser/BrowserActivity.kt:157-162 | there are no tokens iff the filter trims to nothing; otherwise the tokens are the trimmed filter's words, in order, lower-cased |
| Browser.AnyContains | app/src/main/java/com/xiaomi/tvplayer/ui/browser/BrowserActivity.kt:188 | true iff some token occurs in the name |
| Browser.KeepMatching | app/src/main/java/com/xiaomi/tvplayer/ui/browser/BrowserActivity.kt:186-192 | a row stays iff it is a file or a directory whose lower-cased name holds a token |
| Browser.FilterListing | app/src/main/java/com/xiaomi/tvplayer/ui/browser/BrowserActivity.kt:183-193 | no tokens leaves the listing unchanged; with tokens, files pass and a directory passes iff its lower-cased name contains a token |
| Browser.FilterAppend | app/src/main/java/com/xiaomi/tvplayer/ui/browser/BrowserActivity.kt:186-192 | filtering distributes over concatenation, so relative order is preserved |
| Browser.FilterKeepsFiles | app/src/main/java/com/xiaomi/tvplayer/ui/browser/BrowserActivity.kt:186-192 | every file comes through, all of them and in order |
| Browser.ListingNeverFiltered | app/src/main/java/com/xiaomi/tvplayer/ui/browser/BrowserActivity.kt:156-162 | whenever the settings read, the adapter gets the Go Back row and the whole directory listing: `getAppSettings` never yields a filter, so no directory is hidden |
| Browser.GoBackRows | app/src/main/java/com/xiaomi/tvplayer/ui/browser/BrowserActivity.kt:166-178 | one "Go Back" row pointing at the parent iff not at the root and a parent exists, none otherwise |
| Browser.ListingShape | app/src/main/java/com/xiaomi/tvplayer/ui/browser/BrowserActivity.kt:166-195 | the "Go Back" row comes first when present; otherwise the rows are the filtered listing |
| Browser.LoadFiles | app/src/main/java/com/xiaomi/tvplayer/ui/browser/BrowserActivity.kt:148-215 | the path ends under the root; a non-empty listing replaces the adapter's rows, an empty one shows the empty state; the path is saved as last directory; an unreadable store changes nothing but the confined path |
| Browser.LoadThenRestart | app/src/main/java/com/xiaomi/tvplayer/ui/browser/BrowserActivity.kt:208-211 | a loaded directory that still exists is where the browser opens next time |
| Browser.Start | app/src/main/java/com/xiaomi/tvplayer/ui/browser/BrowserActivity.kt:83-127 | fails iff the settings or the last directory cannot be read; the adapter takes both switches from the settings; the path is the start path of the saved directory; with permission the first load lists the Go Back row and the unfiltered directory (or shows the empty state) and saves the path as last directory; without permission nothing is listed or saved |
| Browser.Resume | app/src/main/java/com/xiaomi/tvplayer/ui/browser/BrowserActivity.kt:274-287 | fails iff the settings cannot be read; otherwise a fresh adapter with the current switches, and a reload of the confined path that lists the Go Back row and the unfiltered directory (or shows the empty state) and saves the path as last directory |
| Browser.OnFileClick | app/src/main/java/com/xiaomi/tvplayer/ui/browser/BrowserActivity.kt:217-225 | a directory becomes the (confined) current path and is reloaded: its unfiltered listing replaces the adapter's rows unless empty, the empty state shows iff the listing is empty, and the path is saved as the last directory (nothing changes but the path if settings cannot be read); a file opens the player on its path and carries no browser or preference change |
| Browser.BackTarget | app/src/main/java/com/xiaomi/tvplayer/ui/browser/BrowserActivity.kt:244-255 | BACK goes to the parent when it exists and is under the root, else to the root |
| Browser.OnKeyDown | app/src/main/java/com/xiaomi/tvplayer/ui/browser/BrowserActivity.kt:240-267 | BACK is passed on iff at the root, otherwise it moves to the back target and reloads it as a directory click does (listing into the adapter unless empty, empty state iff empty, last directory saved); MENU and only MENU opens settings; other keys are passed on; neither outcome carries a preference change |
| Browser.BackMovesUp | app/src/main/java/com/xiaomi/tvplayer/ui/browser/BrowserActivity.kt:243-255 | BACK below the root on an absolute path lands on the root or a strictly shorter prefix of the normalised path |
| Player.ResumeDecision | app/src/main/java/com/xiaomi/tvplayer/ui/player/PlayerActivity.kt:96-105 | the prompt appears iff a record exists more than 5000 ms in, and offers that position |
| Player.OnCreate | app/src/main/java/com/xiaomi/tvplayer/ui/player/PlayerActivity.kt:60-78 | the screen closes iff the path extra is missing or empty, without a player; otherwise the resume decision is made |
| Player.StartPosition | app/src/main/java/com/xiaomi/tvplayer/ui/player/PlayerActivity.kt:122-139 | playback starts at 0 or at the offered position; at the offered position unless "from start" is chosen, so the timeout resumes |
| Player.ResumeChoice | app/src/main/java/com/xiaomi/tvplayer/ui/player/PlayerActivity.kt:96-139 | the start is 0 or a saved position above 5000 ms; the saved position unless "from start"; 0 when there is no record past 5 s |
| Player.InitializePlayer | app/src/main/java/com/xiaomi/tvplayer/ui/player/PlayerActivity.kt:142-167 | the player plays from the start position; an enabled overlay is created hidden and attached; a disabled one leaves overlay and container alone |
| Player.Checkpoint | app/src/main/java/com/xiaomi/tvplayer/ui/player/PlayerActivity.kt:169-179 | writes only with a player whose duration is > 0, and then the file's record holds that position and duration |
| Player.OnVideoCompleted | app/src/main/java/com/xiaomi/tvplayer/ui/player/PlayerActivity.kt:181-192 | the record is cleared iff the 95 % rule holds; otherwise the table is unchanged |
| Player.CheckpointThenReopen | app/src/main/java/com/xiaomi/tvplayer/ui/player/PlayerActivity.kt:169-179 | after a checkpoint past 5 s, reopening the file offers to resume there |
| Player.CompletedThenReopen | app/src/main/java/com/xiaomi/tvplayer/ui/player/PlayerActivity.kt:181-192 | after a completed video, reopening it plays from the start |
| Player.SeekBackTarget | app/src/main/java/com/xiaomi/tvplayer/ui/player/PlayerActivity.kt:211-212 | the target is max(0, position − seconds·1000) |
| Player.SeekForwardTarget | app/src/main/java/com/xiaomi/tvplayer/ui/player/PlayerActivity.kt:223-224 | the target is min(duration, position + seconds·1000), with no lower bound |
| Player.Seek | app/src/main/java/com/xiaomi/tvplayer/ui/player/PlayerActivity.kt:207-230 | only the player's position moves, to the seek target; without a player nothing changes |
| Player.TogglePlay | app/src/main/java/com/xiaomi/tvplayer/ui/player/PlayerActivity.kt:239-244 | play and pause flip, and nothing else changes |
| Player.DispatchKeyEvent | app/src/main/java/com/xiaomi/tvplayer/ui/player/PlayerActivity.kt:197-257 | a first LEFT or RIGHT seeks and records the time iff more than 500 ms have passed, and otherwise falls through unchanged; repeated LEFT and RIGHT are consumed unchanged, other repeats passed on; key-up is passed on; UP shows and DOWN hides the overlay, changing only the visibility of the flag and of an existing view; CENTER and ENTER flip play and pause, and change nothing without a player; BACK and HOME save the position when the duration is known, finish the screen and consume the key; other keys are passed on; only BACK and HOME write the table or finish the screen |
| Player.SeekStaysInBounds | app/src/main/java/com/xiaomi/tvplayer/ui/player/PlayerActivity.kt:208-229 | seeking back never goes below 0 nor forward; seeking forward never goes past the duration nor backward |
| Player.SeeksSpaced | app/src/main/java/com/xiaomi/tvplayer/ui/player/PlayerActivity.kt:207-230 | over any timed sequence of events, accepted seeks are more than 500 ms apart, and the screen remembers the last one |

## Left out

- Android lifecycle, views and widgets are not modelled: the layout, RecyclerView, Toasts, `findViewById`, logging and intents. A screen's outcome (`OpenPlayer`, `SettingsOpened`, `finished`) stands for the intent or `finish()` call.
- Timers and coroutines are not modelled. The 5 s checkpoint loop is one `Player.Checkpoint` step. The resume prompt's 10 s timeout is the `DialogTimeout` answer. The 800 ms toast cancel is omitted. `lifecycleScope` and `Dispatchers.IO` work is one sequential step.
- SharedPreferences: `apply()` is treated as immediate.
- SharedPreferences: the Float, Long and string-set value types are not modelled, because the store never uses them.
- `AppDatabase.kt` is not part of this model. It holds the Room singleton and its builder (locking and library plumbing). `PlaybackDao` gives the table's semantics directly.
- ExoPlayer is not modelled. Position, duration and playing state are the `Media` record.
- PlayerActivity's `onPause` (pause the player) and `onDestroy` are not modelled separately. The latter's final save is `Player.Checkpoint`.
- The media-metadata probe is not called. Its answer is the `probedDuration` of each entry.
- The storage-permission request is not modelled. Its outcome is the `granted` argument of `Browser.Start`.
- `Environment.getExternalStorageDirectory()` is not called. The storage root and the external root are parameters.
- The file system is a map from path string to what `exists`, `isDirectory` and `listFiles` report. Lookups use the raw path, so two spellings of one directory are two keys. Symbolic links and I/O errors are not modelled.
- `FileManager.FormatFileSize`: the `%.2f` figure for KB, MB and GB is not produced. Only the unit choice and the exact-bytes label are modelled, because they depend on floating-point formatting.
- `PlaybackManager.IsVideoCompleted`: the double division is computed on exact reals. Rounding at the exact 95 % boundary is not modelled.
- `Player.SeekBackTarget`: `Long` arithmetic is unbounded here. The seek offsets cannot overflow for positions a player reports.
- `Player.SeekForwardTarget`: the same unbounded `Long` arithmetic as `SeekBackTarget`.
- `FileManager.FormatDuration`: the `Long` divisions are modelled with truncation toward zero but without 64-bit overflow.
- `FileManager.GetFilesInDirectory`: the contract states a sorted permutation. It does not state that rows equal under the comparator keep their `listFiles()` order. Such rows are names equal up to case, and Kotlin's stable sort keeps their order.
- `FileManager.ListingLe` compares names by code point. Kotlin's `String.compareTo` compares UTF-16 units. The two orders differ only between characters above U+FFFF and characters in U+E000–U+FFFF, and the model does not follow that.
- `Text.Lower` maps only A–Z; other characters are unchanged. `Text.Trim` and the filter's `\s+` split use the ASCII whitespace characters. Non-ASCII case mappings and Unicode spaces are not modelled.
- `OverlayJson.Decode` accepts only the compact object text Gson writes. Gson's lenient forms (whitespace, nulls, quoted or floating-point numbers, nested values) are not modelled: the model reports them as decode errors.
- `OverlayManager.Background` keeps `Color.argb`'s bit packing for components in 0..255, which is all the overlay ever passes.
- The adapter's click and focus listeners are not modelled. A click is `Browser.OnFileClick`.

## Findings

| source | as written | input that shows it | evidently intended | confidence | as-written member | corrected member |
|---|---|---|---|---|---|---|
| app/src/main/java/com/xiaomi/tvplayer/manager/SettingsManager.kt:52-64 | `saveAppSettings` writes no key for `directoryFilter`, and `getAppSettings` never reads one. The filter typed on the settings screen is lost, and the browser always filters with "". | save `AppSettings(directoryFilter = "movies")`, then `getAppSettings()`: the filter is "" | the filter is stored under a key of its own and read back, so a save followed by a read returns every field | not executed | SettingsManager.DirectoryFilterLost | SettingsManager.FixedSaveThenGet |
| app/src/main/java/com/xiaomi/tvplayer/manager/OverlayManager.kt:95-100 | `updateOverlay` calls `createOverlay`, which clears `isVisible` through `removeOverlay` before `if (isVisible)` reads it. A visible overlay comes back hidden. Nothing calls `updateOverlay` yet, so the defect is latent. | create the overlay, `showOverlay()`, then `updateOverlay(parent, config)`: `isOverlayVisible()` is false | the visibility is remembered before re-creating and restored afterwards | not executed | OverlayManager.UpdateOverlayHides | OverlayManager.UpdateOverlayFixed |
