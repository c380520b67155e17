# Timeline view-model of a Mastodon-style feed viewer

This project models the view-model behind the status feed of a small
Mastodon client written in Rust with Dioxus (`src/ui/timeline.rs`). It has
three parts, and each is modelled together with the properties the code
relies on.

- **Toggle and handlers.** A status has three interactions with a counter:
  favourite, reply and reblog. Each handler looks up the status by id. It
  then flips the interaction's flag and moves the paired `u32` counter by
  one in the same direction. The bookmark handler only flips its flag.
- **Page merge.** Each record of a fetched page is inserted into the status
  store (a hash map keyed by id), in page order, and the last write wins.
  A fresh id list holds every id, duplicates included. That list is then
  published.
- **Feed projection.** The feed is nothing until an id list is published.
  After that it holds the current store entry for every listed id, in
  list order.

Files:

- `Api.dfy`: the `Account` and `StatusData` records and the `U32` range.
- `Interactions.dfy`: the toggle as a value function (`Toggled`). It also
  holds the effect of each control on one record (`Apply`, over an `Action`
  enumeration of the four controls) and the round-trip laws.
- `Timeline.dfy`: the store functions (`Ids`, `MergeStore`, `Project`) and
  their lemmas. It also holds the `Toggle` method, which takes the two
  values the Rust function reaches through `&mut` and returns them
  updated, and the class `Timeline`. That class holds the store and the
  published id list, with `Merge`, `Feed` and the four handlers.

`Timeline.Valid()` is the class invariant: every published id is a key of
the store, which is what the `unwrap`s need. The merge and every handler
keep it. A store whose entries sit under their own ids (`KeyedById`) stays
so after a merge, and its feed lists exactly the published ids.

`toggle` does not clamp. On a `u32`, `*b -= 1` at count 0
(src/ui/timeline.rs:71) and `*b += 1` at 2^32 - 1 (src/ui/timeline.rs:74)
both panic in debug builds. So `CanToggle` is a precondition: count at
least 1 when the flag is set, and count + 1 below 2^32 when it is clear.
The handlers require it of the entry they update.

Each merge builds a new id list from an empty vector, so the published list
is the latest page's ids. It is not an accumulation across loads.
`MergeIdempotent` states what happens to the store when the same page is
loaded twice.

## Model

| member | source | states |
|---|---|---|
| `Interactions.Toggled` | src/ui/timeline.rs:68-76 | under the no-overflow/no-underflow condition the flag flips; the count goes up by one when the flag turns on and down by one when it turns off; toggling back is again defined |
| `Interactions.ToggledTwice` | src/ui/timeline.rs:68-76 | toggling twice restores the flag and the count exactly |
| `Timeline.Toggle` | src/ui/timeline.rs:68-76 | the in/out toggle helper returns exactly the toggled flag/counter pair; needs count >= 1 to turn off and count + 1 < 2^32 to turn on |
| `Interactions.Apply` | src/ui/timeline.rs:42-61 | one press of a control flips that control's flag; for favourite/reply/reblog the paired counter moves with the flag; every other flag and counter, and id, account and content, stay unchanged; bookmark changes no counter |
| `Interactions.ApplyTwice` | src/ui/timeline.rs:42-61 | pressing any control twice gives back the identical record (bookmark included) |
| `Interactions.ApplyNParity` | src/ui/timeline.rs:42-61 | after an even number of presses the record is the original; after an odd number it is the record after one press |
| `Timeline.Ids` | src/ui/timeline.rs:17-19 | the id list has one entry per record of the page, in page order, with duplicates kept |
| `Timeline.LastIndexOf` | src/ui/timeline.rs:18-20 | for an id of the page, gives the position of the last record carrying it |
| `Timeline.MergeStore` | src/ui/timeline.rs:18-21 | after inserting a page, the keys are the old keys plus the page's ids; each page id holds the last record the page carries for it; every other entry is kept; entries stay keyed by their own id |
| `Timeline.MergeIdempotent` | src/ui/timeline.rs:18-21 | merging the same page a second time leaves the store as the first merge made it |
| `Timeline.MergedIdsPresent` | src/ui/timeline.rs:17-22 | every id of a merged page is a key of the merged store |
| `Timeline.Project` | src/ui/timeline.rs:31-35 | for ids that are all keys, the projection has one element per id; element i is the store entry for id i; in a store keyed by own id, the projection's ids are the id list |
| `Timeline.ProjectMerged` | src/ui/timeline.rs:17-35 | projecting a merged page's ids gives, at each position, the last record the page carries for that id |
| `Timeline.ProjectMergedDistinct` | src/ui/timeline.rs:17-35 | when a page's ids are distinct, projecting after the merge gives back the page itself |
| `Timeline.ProjectUpdate` | src/ui/timeline.rs:30-35 | updating one store entry changes the projection exactly at the positions listing that id |
| `Timeline.Timeline.constructor` | src/ui/timeline.rs:10-11 | starts from the given store with no id list published |
| `Timeline.Timeline.Merge` | src/ui/timeline.rs:16-22 | the store becomes the page merged into the old store; the published id list is the page's ids in order; every published id is present; a store keyed by own id stays so |
| `Timeline.Timeline.Feed` | src/ui/timeline.rs:29-36 | `None` exactly when no id list is published; otherwise one element per id, element i the store entry for id i, and, in a store keyed by own id, the elements' ids are the list |
| `Timeline.Timeline.OnFavorite` | src/ui/timeline.rs:42-46 | requires the id to be a key and the toggle to be defined; only that entry changes, by the favourite toggle; the id list is unchanged |
| `Timeline.Timeline.OnReply` | src/ui/timeline.rs:47-51 | requires the id to be a key and the toggle to be defined; only that entry changes, by the reply toggle; the id list is unchanged |
| `Timeline.Timeline.OnReblog` | src/ui/timeline.rs:52-56 | requires the id to be a key and the toggle to be defined; only that entry changes, by the reblog toggle; the id list is unchanged |
| `Timeline.Timeline.OnBookmark` | src/ui/timeline.rs:57-61 | requires the id to be a key; only that entry's bookmark flag flips; the id list is unchanged |
| `Timeline.PressTwice` | src/ui/timeline.rs:42-61 | pressing any control of a listed status twice through its handler leaves the store and the id list exactly as they were |

## Left out

- The fetch (`get_timeline`, src/api.rs:26-33) is a network request, so the page is an input to `Merge`. When the request or decoding fails, the code panics at its `unwrap`s before anything is inserted, so there is no partial-merge path to model. The two files also disagree on its parameters: src/ui/timeline.rs:16 calls `get_timeline(&id)`, while src/api.rs:26 declares `get_timeline()` with none.
- JSON decoding (serde renames and `default` for the flags) is library behaviour. The model starts from decoded records.
- Dioxus signals, `use_effect`, `use_memo` and async scheduling are the framework's reactivity. `Merge` and each handler are modelled as one atomic step, and `Feed` as a function evaluated on demand.
- Other components in the application may also use the store, and they are not modelled.
- The `unwrap` panics on a missing id and the `u32` overflow panics of debug builds are modelled as preconditions (`id in statuses`, `CanApply`). Release-build wrap-around of `u32` is not modelled.
- Rendering, routing, login, server picking and styling (`src/main.rs` and the other files under `src/ui/`) are UI component trees with no logic to model.
- HTML content and avatar strings are opaque payloads carried unchanged.
