# asciihou: a model of the game's discrete rules

asciihou is a bullet-hell shooter built on Bevy and Rapier, drawn entirely in text
glyphs. This project models, in Dafny, the small discrete rules underneath its engine
glue, and proves properties about them:

- **ASCII editor** (`src/bin/ascii_editor.rs`): the strict six-digit hex colour parser
  `parse_hex_color`, the colour and glyph input buffers (`color_input`, `char_input`), and
  the focus and brush logic of `button_system`.
- **ASCII animation** (`src/ascii_animation.rs`): the lenient colour decoder
  `color_from_hex`, `get_component`, the frame-store indexing of `get_ascii_char_at`, the
  grid of children spawned by `spawn_ascii_animation`, and the frame advance of
  `play_ascii_animation`.
- **Main menu** (`src/ui.rs`): the cyclic cursor of `main_menu_selection`, with key
  priority and auto-repeat, the label rewrite of `main_menu_update_texts`, and the reset
  and confirm systems.
- **Gameplay** (`src/main.rs`):
  - the HUD strings;
  - the shot budget of `single_shoot` and `fan_shoot`, the fan spread offsets, the
    player's power thresholds and the support units;
  - the laser's telegraph, active and despawn phases and its row text;
  - the counters and entity bookkeeping of `bullet_hit`, `item_hit`, `player_graze` and
    `player_bomb`;
  - the pair matchers and the out-of-bounds despawn.

Bevy's `Timer` is modelled as a counter of elapsed milliseconds (`Timers`). A tick sets a
stored `finished` flag when the elapsed time reaches the duration. A `Once` timer then
clamps its elapsed time and ignores later ticks; a `Repeating` timer wraps around.

Strings that the source measures and slices by byte are byte sequences. `&s[a..b]`
panics off a character boundary, and that panic is modelled as `Outcome.Panics`. Entities
are numbered. A system changes components it holds through a query at once, but its
`Commands` (despawn, insert, remove) are queued and only applied once it has read all of
its events. `Collisions.Flush` models that last step.

Two consequences of this deferral are proved:

- Two bullets that reach the player in the same frame cost two lives, because the
  `Invincible` insert has not landed yet.
- A bullet that enters and leaves the graze zone within one frame stays slowed, because
  its `GrazingBullet` marker does not exist yet when the exit event is read.

Both are behaviours of the source as written.

## Model

| member | source | states |
|---|---|---|
| Timers.Tick | src/main.rs:433-435 | `timer.tick(delta)`: a finished Once timer ignores the tick. Otherwise the timer finishes exactly when the accumulated time reaches the duration, and `just_finished` is set exactly then. Once timers clamp and Repeating timers wrap modulo the duration, which keeps the timer consistent. |
| Timers.NewTimer | src/main.rs:729-731 | `Timer::from_seconds(d, mode)` has that duration and mode, no elapsed time, and has not finished. |
| Timers.Reset | src/main.rs:476 | `timer.reset()` gives a fresh timer of the same duration and mode. |
| Wrappers.MapAll | src/ascii_animation.rs:81-84 | `iter().map(f).collect()` with a panicking `f` returns iff no element panics, and then holds each element's image, in order. |
| Arith.Min | src/main.rs:340 | The smaller of two values: at most both, and equal to one of them. |
| Hex.ParsePair | src/bin/ascii_editor.rs:61-63 | `u8::from_str_radix` on two bytes succeeds iff the second byte is a hex digit and the first is a hex digit or `+`. It then yields `16*hi + lo`, or the one digit after the `+`. |
| Hex.ParseU8Hex | src/bin/ascii_editor.rs:61-63 | `u8::from_str_radix(s, 16)` succeeds only on a non-empty string that does not start with `-`, made of hex digits after at most one leading `+`. On plain hex digits it succeeds iff their value is below 256, and yields that value. |
| Hex.FormatRgb | src/bin/ascii_editor.rs:57-64 | A colour written as `rrggbb` is six hex-digit bytes. |
| Hex.ParseFormatByte | src/bin/ascii_editor.rs:61-63 | Parsing a byte written as two hex digits, in either case, gives the byte back. |
| Hex.Slice | src/bin/ascii_editor.rs:61-63 | `&s[lo..hi]` returns exactly `s[lo..hi]` iff the range is in bounds and both ends are on character boundaries. Otherwise it panics. |
| Hex.TrimStart | src/ascii_animation.rs:70 | `trim_start_matches(c)` returns a suffix that does not start with `c`, and every removed byte is `c`. |
| Text.Repeat | src/main.rs:235-236 | `s.repeat(n)` has length `|s|*n`. |
| Text.CountRepeat | src/main.rs:235 | A glyph repeated `n` times contains exactly `n` of that glyph and none of any other. |
| Text.CountRepeatRow | src/main.rs:336-345 | Repeating a row `x\n` `n` times yields exactly `n` line breaks. |
| Text.DecimalRoundTrip | src/main.rs:255 | Parsing `n.to_string()` as a decimal gives `n` back, negative numbers included. |
| Text.Decimal | src/main.rs:255 | `i32::to_string` is non-empty, starts with `-` iff the number is negative, and is digits after the first character. |
| Text.LineCount | src/main.rs:336 | `lines().count()` is at most the length, and 0 exactly for the empty string. |
| AsciiEditor.ParseHexColor | src/bin/ascii_editor.rs:57-65 | A length other than 6 gives `Err`. It panics exactly when the length is 6 and either byte 2 is not a character boundary, or the first pair parses and byte 4 is not a boundary. The result is `Ok` iff the length is 6, both boundaries hold and each of the three 2-byte slices parses. The `Ok` colour is made of the three parsed channels. |
| AsciiEditor.ParseHexDigits | src/bin/ascii_editor.rs:58-63 | On a string of hex digits the parser never panics, and it accepts exactly when the length is 6. |
| AsciiEditor.ParseFormatRoundTrip | src/bin/ascii_editor.rs:57-64 | Round trip: any colour formatted as six hex digits parses back to itself. |
| AsciiEditor.PlusSignAccepted | src/bin/ascii_editor.rs:61-63 | Because `from_str_radix` skips a leading `+`, `"+f+f+f"` is accepted as (15, 15, 15). |
| AsciiEditor.NonAsciiPanics | src/bin/ascii_editor.rs:58-61 | A 6-byte string with a two-byte character across offset 2 passes the length check and then panics in the slice. |
| AsciiEditor.InitialView | src/bin/ascii_editor.rs:446-452 | The editor starts with both inputs inactive, an empty colour buffer and an all-hex colour text. |
| AsciiEditor.AsciiHexBytes | src/bin/ascii_editor.rs:412-413 | Pushing an ASCII hex string appends one hex-digit byte per character, with the same code. |
| AsciiEditor.ColorKey | src/bin/ascii_editor.rs:406-422 | One key event never clears the `changed` flag. A release or another key changes nothing. A backspace sets the flag and drops the last byte, if any. A character key that changes the buffer sets the flag, needs fewer than 6 bytes and an all-hex key, and appends the key's bytes. |
| AsciiEditor.ColorKeys | src/bin/ascii_editor.rs:403-423 | If the loop reports no change, the buffer is unchanged. |
| AsciiEditor.ColorInputRun | src/bin/ascii_editor.rs:392-434 | `color_input` touches only the colour buffer, the colour text and the brush colour. |
| AsciiEditor.ColorKeysStayHex | src/bin/ascii_editor.rs:412-418 | The colour buffer only ever holds ASCII hex digits. |
| AsciiEditor.ColorKeysBounded | src/bin/ascii_editor.rs:412-413 | With keys of at most one character, the colour buffer never exceeds 6 bytes. |
| AsciiEditor.BackspaceOnEmpty | src/bin/ascii_editor.rs:417-419 | Backspace on an empty buffer leaves it empty, and it still counts as a change. |
| AsciiEditor.BrushFollowsSixDigits | src/bin/ascii_editor.rs:425-432 | The brush colour changes only when the buffer holds exactly six hex digits, and it becomes their colour. A changed buffer of six digits always recolours the brush. |
| AsciiEditor.CharKey | src/bin/ascii_editor.rs:210-230 | One key event never clears the `changed` flag. A release or another key changes nothing, and a backspace leaves an empty buffer, a space glyph and the flag set. Any change sets the flag and leaves the buffer as exactly the brush glyph, or empty with a space glyph. |
| AsciiEditor.CharKeys | src/bin/ascii_editor.rs:210-230 | If the loop reports no change, the buffer and the brush glyph are unchanged. |
| AsciiEditor.CharInputRun | src/bin/ascii_editor.rs:197-237 | An inactive char input changes nothing. An active one touches only the glyph buffer, its text and the brush glyph. |
| AsciiEditor.CharKeysAgree | src/bin/ascii_editor.rs:216-227 | After a change, the buffer is exactly the brush glyph, or it is empty and the brush glyph is a space. |
| AsciiEditor.CharKeyLast | src/bin/ascii_editor.rs:216-227 | A final character key leaves exactly its first char in the buffer, the brush and the text. A final backspace leaves them empty, empty and a space. |
| AsciiEditor.ButtonStep | src/bin/ascii_editor.rs:80-193 | A button event never touches the buffers or texts. Only a pressed char sample changes the brush glyph, and only a pressed sample changes the brush colour. An event never leaves both inputs active. |
| AsciiEditor.ButtonFocus | src/bin/ascii_editor.rs:91-190 | Pressing or hovering an input box focuses it and unfocuses the other. Leaving either box unfocuses both, and samples never change focus. Pressing the colour box appends the parsed colour iff the buffer parses. Pressing the char box appends the brush's glyph and colour. No other event spawns a sample. |
| AsciiEditor.ButtonRun | src/bin/ascii_editor.rs:66-195 | The button loop over a frame never edits the two input buffers or their texts. |
| AsciiEditor.SamplePress | src/bin/ascii_editor.rs:152-160 | Pressing a colour sample sets only the brush colour. Pressing a char sample sets the brush glyph and colour. |
| AsciiEditor.ColorSamplesParse | src/bin/ascii_editor.rs:91-105 | Samples are only appended. A colour sample is added only for a buffer of six hex digits, and it is that buffer's colour. |
| AsciiEditor.ButtonStepSample | src/bin/ascii_editor.rs:91-113 | One button event adds at most one colour sample, and it is the colour the buffer parses to. |
| AsciiEditor.ButtonRunExclusive | src/bin/ascii_editor.rs:91-190 | Any sequence of button events keeps at most one input active. |
| AsciiEditor.NeverBothActive | src/bin/ascii_editor.rs:91-190 | From start-up, under any interleaving of the three systems, the two inputs are never both active and the colour buffer stays hex. |
| AsciiEditor.Editor.constructor | src/bin/ascii_editor.rs:446-452 | The resources start at their defaults. |
| AsciiEditor.Editor.Interact | src/bin/ascii_editor.rs:80-193 | One changed button, applied in place, gives `ButtonStep` of the old state. |
| AsciiEditor.Editor.ButtonSystem | src/bin/ascii_editor.rs:66-196 | The in-place loop over changed buttons yields `ButtonRun` of the old state, and keeps the invariant. |
| AsciiEditor.Editor.ColorKeyEvent | src/bin/ascii_editor.rs:406-422 | One key event, applied in place to the colour buffer, gives `ColorKey` of the old buffer and flag. Nothing else changes. |
| AsciiEditor.Editor.ColorInputSystem | src/bin/ascii_editor.rs:392-434 | The in-place key loop yields `ColorInputRun` of the old state, and keeps the invariant. |
| AsciiEditor.Editor.ColorRefresh | src/bin/ascii_editor.rs:425-433 | After an edit, the colour text shows the buffer, and the brush takes the buffer's colour iff it parses. Nothing else changes. |
| AsciiEditor.Editor.CharKeyEvent | src/bin/ascii_editor.rs:210-229 | One key event, applied in place to the glyph buffer and the brush glyph, gives `CharKey` of the old values. Nothing else changes. |
| AsciiEditor.Editor.CharInputSystem | src/bin/ascii_editor.rs:197-237 | The in-place key loop yields `CharInputRun` of the old state, and keeps the invariant. |
| AsciiAnimation.ColorFromHex | src/ascii_animation.rs:69-75 | After all leading `#` are stripped, the result returns iff at least 6 bytes remain and bytes 2, 4 and 6 are character boundaries. Each channel is its pair's value, or 255 where the pair does not parse. |
| AsciiAnimation.HashPrefixIgnored | src/ascii_animation.rs:70 | Any number of leading `#` makes no difference. |
| AsciiAnimation.FormattedColorDecodes | src/ascii_animation.rs:69-74 | `rrggbb` and `#rrggbb` both decode to the colour they were written from. |
| AsciiAnimation.InvalidChannelsAreWhite | src/ascii_animation.rs:71-73 | Channels that are not hex fall back to 255, so `"zzzzzz"` is white. |
| AsciiAnimation.ShorthandPanics | src/ascii_animation.rs:70-71 | The three-digit shorthand `"#fff"` is too short to slice and panics. |
| AsciiAnimation.DecodeFrames | src/ascii_animation.rs:81-84 | The frames are decoded cell by cell, in order, with the same glyphs. The decode panics iff some colour panics. |
| AsciiAnimation.DecodeCell | src/ascii_animation.rs:83 | A cell decodes iff its colour does, and then keeps its glyph and has that colour. |
| AsciiAnimation.GetComponent | src/ascii_animation.rs:80-93 | The component keeps the number and order of the frames, and each cell is its glyph with its decoded colour. It starts at frame 0, copies the frame count and size, and has a fresh repeating frame timer. |
| AsciiAnimation.CellIndex | src/ascii_animation.rs:24-26 | The index of a cell of frame `f` is at least `f*w*h`. For an in-frame position it is below `(f+1)*w*h`. |
| AsciiAnimation.CellIndexInFrame | src/ascii_animation.rs:24-26 | For an in-frame position and `frame < frame_num`, the index lies in that frame's block of `w*h` cells, and so below `frame_num*w*h`. |
| AsciiAnimation.CellIndexInjective | src/ascii_animation.rs:25 | Two (position, frame) pairs with in-frame positions and frames below `frame_num` read the same cell only if the frames and the positions are equal. |
| AsciiAnimation.Advance | src/ascii_animation.rs:158 | The frame advance stays below `frame_num`. It steps by one, and wraps to 0 after the last frame. |
| AsciiAnimation.AdvanceTimesMod | src/ascii_animation.rs:157-158 | After `k` finished frame timers the animation shows frame `(frame + k) % frame_num`. |
| AsciiAnimation.AdvanceMod | src/ascii_animation.rs:158 | Advancing from a reduced frame number is the same as advancing the unreduced one. |
| AsciiAnimation.AnimationCycles | src/ascii_animation.rs:158 | `frame_num` advances return to the starting frame. |
| AsciiAnimation.ColumnPositions | src/ascii_animation.rs:124-125 | Column `x` spawns positions `(x, 0)` to `(x, h-1)` in order. |
| AsciiAnimation.SpawnPositions | src/ascii_animation.rs:123-125 | Exactly `w*h` children are spawned. |
| AsciiAnimation.SpawnCoversFrame | src/ascii_animation.rs:123-125 | Every spawned position is in the frame, every cell of the frame is covered, and no position repeats. |
| AsciiAnimation.Positions | src/ascii_animation.rs:137 | The positions read off the children correspond one to one, in order. |
| AsciiAnimation.SpawnChildren | src/ascii_animation.rs:122-144 | The nested `for x`/`for y` loops spawn one child per position in spawn order, each showing its cell of frame 0. |
| AsciiAnimation.AnimationEntity.constructor | src/ascii_animation.rs:102-147 | The spawned entity carries the component, and its children cover the grid and show the first frame. |
| AsciiAnimation.AnimationEntity.Play | src/ascii_animation.rs:148-168 | The timer is ticked. The frame advances exactly when the timer just finished, and then every child shows its cell of the new frame. Otherwise the children are unchanged, and their positions are always unchanged. |
| MainMenu.Position | src/ui.rs:229-238 | The index of an entry in the eight-entry order, which is always in `0..8`. A state outside the order (`unwrap_or(0)`) gets index 0. |
| MainMenu.Step | src/ui.rs:266-269 | One move gives index `(i + dir + 8) % 8`: wrap to 7 below 0, wrap to 0 at 8, otherwise `i + dir`. The result is always an entry of the order. |
| MainMenu.PositionOfOrder | src/ui.rs:229-238 | Every entry of the order sits at its own index. |
| MainMenu.WrapAround | src/ui.rs:229-238 | Up from `Start` gives `Quit`, and Down from `Quit` gives `Start`. |
| MainMenu.DownThenUp | src/ui.rs:268 | Down then Up, or Up then Down, restores the selection. |
| MainMenu.StepMod | src/ui.rs:268 | A move from index `a % 8` lands on `(a+1) % 8` (Down) or `(a+7) % 8` (Up). |
| MainMenu.StepsPosition | src/ui.rs:268 | `k` moves Down add `k` to the index, and `k` moves Up add `7k`, modulo 8. |
| MainMenu.EightStepsCycle | src/ui.rs:268 | Eight moves in one direction are the identity. |
| MainMenu.KeyPriority | src/ui.rs:242-260 | A just-pressed Up beats a just-pressed Down, which beats a held key; both reset the timer. With no arrow key the timer resets and nothing moves. The direction is always -1, 0 or 1. |
| MainMenu.HeldKeyRepeats | src/ui.rs:248-257 | A held arrow ticks the repeat timer. It moves, in its own direction, exactly on ticks where the timer has finished. |
| MainMenu.RepeatDelay | src/ui.rs:242-257 | After a fresh press, holding moves again only once a whole 150 ms repeat interval has elapsed. |
| MainMenu.Direction | src/ui.rs:242-260 | The timer keeps its duration and mode. A move needs a fresh press or a finished repeat timer. Moving up needs Up pressed or held, and moving down needs Down pressed or held. |
| MainMenu.TrimPrefix | src/ui.rs:213 | `trim_start_matches(['>', ' '])` returns a suffix that does not start with `>` or a space, and every removed character is one of them. |
| MainMenu.PrefixLength | src/ui.rs:213 | The number of leading `>` and space characters: all of them are markers, and the next character, if any, is not. |
| MainMenu.Relabel | src/ui.rs:212-219 | The entry is kept. The text is two marker characters and then the stripped label, and it starts with `>` iff the entry is selected. |
| MainMenu.RelabelAll | src/ui.rs:212-219 | Every entry is relabelled, in order. |
| MainMenu.TrimPrefixOver | src/ui.rs:213 | Markers put in front of a stripped label are stripped again. |
| MainMenu.RelabelMarks | src/ui.rs:212-219 | Exactly the selected entry starts with `"> "` and every other entry with `"  "`. The stripped label is preserved. |
| MainMenu.RelabelIdempotent | src/ui.rs:212-219 | Relabelling twice is the same as relabelling once. |
| MainMenu.RelabelFixed | src/ui.rs:212-219 | An entry that already carries the right marker before its label is left unchanged. |
| MainMenu.SelectedMenuEntry.constructor | src/ui.rs:33-36 | The menu starts on `Start` with a 0.15 s repeating timer. |
| MainMenu.SelectedMenuEntry.Selection | src/ui.rs:222-270 | The timer and the selection are updated by the key priority and the cyclic step. |
| MainMenu.SelectedMenuEntry.ConfirmSelection | src/ui.rs:272-280 | Enter or Z, and only they, request the currently selected state. |
| MainMenu.SelectedMenuEntry.ResetSelection | src/ui.rs:282-286 | The selection becomes `Quit`. |
| MainMenu.SelectedMenuEntry.UpdateTexts | src/ui.rs:204-220 | When the selection changed, the in-place loop relabels every entry; otherwise nothing changes. |
| Hud.NonNegative | src/main.rs:235-236 | `n.max(0) as usize`. |
| Hud.LivesText | src/main.rs:231-240 | The lives text starts with two spaces and has length `2 + |"Player: "| + 2*max(lives,0)`. |
| Hud.BombsText | src/main.rs:241-250 | The bombs text has length `|"Bomb: "| + 2*max(bombs,0)`. |
| Hud.CounterText | src/main.rs:251-280 | A counter text starts with a space, is `1 + |label| + 2*|digits|` long, and ends with the counter's decimal digits. |
| Hud.LivesTextShape | src/main.rs:231-240 | The lives text is two spaces, a margin of `max(lives,0)` spaces, `"Player: "`, then exactly `max(lives,0)` `@` glyphs. |
| Hud.NoLivesNoGlyphs | src/main.rs:235-238 | Zero or negative lives show the label and no glyph. |
| Hud.BombsTextShape | src/main.rs:241-250 | The bombs text is a margin of `max(bombs,0)` spaces, `"Bomb: "`, then exactly `max(bombs,0)` `$` glyphs. |
| Hud.CounterTextShape | src/main.rs:251-280 | The power, graze and point texts are a space and a margin as wide as the number, the label, then the number, which parses back to the counter. |
| Targets.GroupsFor | src/main.rs:31-38 | Each target has non-empty collision groups, never the empty groups of a telegraphing laser. |
| Targets.TargetsDisjoint | src/main.rs:34-35 | Bullets aimed at the player and bullets aimed at enemies share no membership group and no filter group. |
| Shooting.Budget | src/main.rs:436-441 | When the cooldown fires, a positive budget fires and decrements, zero removes the shooter without firing, and a negative budget fires and is unchanged. |
| Shooting.BudgetIsExact | src/main.rs:436-441 | A budget `k >= 0` fires exactly `min(k, finishes)` shots. A negative budget, like the support units' -1, fires on every finished cooldown. |
| Shooting.RustDiv | src/main.rs:502 | `i32` division truncates toward zero. |
| Shooting.SpreadOffsets | src/main.rs:501-502 | There is one offset per bullet, and none for a non-positive count. |
| Shooting.SpreadShape | src/main.rs:501-502 | The offsets are consecutive, include 0 at the middle bullet and start at `-(n-1)/2`. An odd fan is symmetric; an even fan leans one step positive. |
| Shooting.FireSpread | src/main.rs:1379-1380 | The spawning loop produces exactly the offsets `i - (n-1)/2`. |
| Shooting.PlayerSpread | src/main.rs:1371-1377 | The player fires 1, 3 or 5 bullets. It fires 1 iff `powers <= 30` and 5 iff `powers > 50`. The angle step is 10 degrees for a fan and 0 for a single bullet. |
| Shooting.PlayerSpreadMonotone | src/main.rs:1371-1377 | More power never means fewer bullets. |
| Shooting.LaunchGroups | src/main.rs:470 | A bullet is spawned with empty collision groups iff it is a laser. |
| Shooting.ShotsOf | src/main.rs:501-511 | One spawned bullet per offset, in order, all with the same groups. |
| Shooting.Shooter.Shoot | src/main.rs:427-540 | The cooldown is ticked. If it has not finished, nothing else happens. Otherwise the shooter is removed (budget 0), or it fires the whole fan, spends the budget and resets the cooldown. |
| Shooting.PlayerVolley | src/main.rs:1379-1403 | The volley has as many bullets as the power threshold gives. |
| Shooting.PlayerGun.constructor | src/main.rs:1614 | The gun's cooldown is a fresh 0.1 s Once timer. |
| Shooting.PlayerGun.TickCooldown | src/main.rs:1223-1230 | The cooldown is ticked and nothing is fired. |
| Shooting.PlayerGun.Shoot | src/main.rs:1360-1408 | When the cooldown has finished, the gun fires the volley for the current power and resets the cooldown. Otherwise nothing changes. |
| Shooting.SupportUnitsPaired | src/main.rs:542-616 | From no units, any sequence of frames leaves either no units or exactly the left/right pair. The pair never runs out of shots. A frame whose power changed to below 1 removes them. |
| Shooting.SupportFrame | src/main.rs:542-616 | A frame without a power change keeps the units. A changed power below 1 removes them all. Otherwise units are only added. No units or the pair stay no units or the pair. |
| Shooting.SupportUnits.constructor | src/main.rs:542-551 | There are no support units at first. |
| Shooting.SupportUnits.Spawn | src/main.rs:542-604 | With power at least 1, fewer than two units and a player, the pair is spawned. Otherwise nothing changes. The units stay none or the pair. |
| Shooting.SupportUnits.Despawn | src/main.rs:606-616 | With power below 1, every unit is despawned. Otherwise nothing changes. |
| Laser.RowText | src/main.rs:336-345 | The text is rebuilt without a panic iff `decays <= replace <= total`; otherwise a `usize` subtraction panics. The text then has two characters per row. |
| Laser.RowAt | src/main.rs:342-345 | Row `k` is a blank before `decays`, a `V` before `replace` and a `!` after, each followed by a line break. |
| Laser.RowsToReplace | src/main.rs:340 | The solid rows are at most `total`. None are solid at the start, at least one once any time has passed, and all of them from 0.2 s. |
| Laser.RowsDecaying | src/main.rs:341 | Within the duration, the blank rows are at most `total`. None are blank up to 85 % of the duration, and all are blank at its end. |
| Laser.RowTextLines | src/main.rs:336-345 | The rebuilt text has exactly `total` lines again. |
| Laser.InitialText | src/main.rs:723 | The spawned laser is 44 warning rows with 44 lines. |
| Laser.RowsOrdered | src/main.rs:331-345 | While the animation timer trails the duration timer, the row counts satisfy `decays <= replace <= total`, so the subtractions never panic. All rows are solid from 0.2 s, none is blank before 85 % of the duration, and all are blank at its end. |
| Laser.LaserBullet.constructor | src/main.rs:718-741 | A laser starts with three fresh Once timers (3 s, 2 s, 0.2 s), no collision groups and 44 warning rows. |
| Laser.LaserBullet.Step | src/main.rs:292-349 | While telegraphing, only the telegraph timer ticks, and the target's groups are set exactly when it finishes. After the duration has finished the laser is despawned. Otherwise both timers tick and the text is rebuilt without a panic. The invariant holds throughout: no groups until the telegraph ends, despawned only after the duration, always 44 lines. |
| Collisions.Opt | src/main.rs:1081-1085 | The player query as a set: it holds the player's entity and nothing else. |
| Collisions.MatchPair | src/main.rs:906-922 | The result is a pair iff one collider is a bullet and the other a target. The pair is the two colliders, bullet first, and the first order is preferred. |
| Collisions.MatchPairSymmetric | src/main.rs:906-922 | Unless both orders match, the order in which the pair is reported does not matter. |
| Collisions.MatchGraze | src/main.rs:1288-1301 | The matcher finds the bullet of a zone/bullet pair in either order, and finds nothing otherwise. |
| Collisions.MatchGrazeAgrees | src/main.rs:1288-1301 | When no entity is both zone and bullet, the graze matcher finds the bullet that `match_bullet_hit_pair` would. |
| Collisions.ApplyAll | src/main.rs:1076-1079 | Applying commands only removes entities and sets markers and flags. The counters are left alone. |
| Collisions.ApplyOne | src/main.rs:1076-1079 | One command never touches the queue or the counters, and never adds a bullet or an enemy. |
| Collisions.Flush | src/main.rs:1166-1170 | The end of a system leaves no queued command. |
| Collisions.Drop | src/main.rs:981 | An enemy drops one to three items of each kind. |
| Collisions.CeilHalf | src/main.rs:1094 | The dropped power is half the power rounded up (`2c-1 <= p <= 2c`), and none for a non-positive power. |
| Collisions.HitStep | src/main.rs:937-1175 | A `Stopped` event changes nothing. An event despawns no entity at once, leaves the player's invincibility, points, graze and bombs alone, and queues at most two commands after the old ones. |
| Collisions.HitRun | src/main.rs:924-1177 | Over a frame's events, the bullets, enemies and player stay until the commands are applied, and commands only accumulate, at most two per event. |
| Collisions.EnemyHit | src/main.rs:946-1079 | An invincible enemy is unaffected and the bullet survives. Otherwise health drops by exactly 1 and the bullet is despawned. The enemy is despawned iff its health reaches 0 or less, and then it drops its items. |
| Collisions.PlayerHit | src/main.rs:1086-1170 | An invincible player is unaffected. Otherwise lives become `max(lives-1, 0)`, `ceil(powers/2)` power items are dropped, powers become 0, and invincibility and the bullet's despawn are queued. |
| Collisions.HitRunBounds | src/main.rs:924-1177 | Within a frame, lives and power never grow and never go negative, and lives fall by at most one per event. No entity disappears before the commands are applied. |
| Collisions.TwoHitsInOneFrame | src/main.rs:1089-1170 | Two bullets in one frame cost two lives. After a hit is flushed the player is invincible, so the next frame's hit costs none. |
| Collisions.EnemyDiesTwiceInOneFrame | src/main.rs:949-1076 | An enemy at 1 health reached by two bullets in one frame reaches -1 health, drops items twice and is queued for despawn twice. |
| Collisions.ItemRunBounds | src/main.rs:1179-1207 | Each event adds at most one power or one point. Counters only grow, and only despawns of items are queued. |
| Collisions.ItemStepBounds | src/main.rs:1188-1204 | One event adds at most one power or point and queues at most one despawn, of an item. |
| Collisions.Pickup | src/main.rs:1198-1204 | Touching a power item adds one power and queues its despawn. Touching a point item adds one point and queues its despawn. Touching anything else changes nothing. |
| Collisions.ItemStep | src/main.rs:1188-1204 | Only a `Started` event that involves the player changes anything. No entity is removed at once. |
| Collisions.ItemRun | src/main.rs:1179-1207 | Without a player nothing changes. No entity is removed before the commands are applied. |
| Collisions.PowerItemCollectedOnce | src/main.rs:1196-1198 | A power item adds one power, is gone after the frame, and touching it again adds nothing. |
| Collisions.GrazeRunBounds | src/main.rs:1304-1358 | Within a frame the graze counter never falls and rises by at most one per event. No bullet gains or loses its marker before the commands are applied. |
| Collisions.GrazeStepBounds | src/main.rs:1318-1356 | One event counts at most one graze, and it leaves every bullet's marker and the other counters as they were. |
| Collisions.GrazeStep | src/main.rs:1318-1356 | Only an event that involves the graze zone changes anything. The counter rises, by one, only on `Started`. At most one command is queued after the old ones. |
| Collisions.GrazeRun | src/main.rs:1304-1358 | Without a graze zone nothing changes. The zone, the player and the enemies are left alone. |
| Collisions.MarkedBulletNotRecounted | src/main.rs:1325 | A bullet already grazing is neither counted nor slowed again. |
| Collisions.GrazeEnter | src/main.rs:1325-1333 | Entering counts one graze. After the frame, the bullet is slowed by 0.7, bloomed and marked with its original colour. |
| Collisions.GrazeLeave | src/main.rs:1343-1351 | Leaving divides a marked bullet's velocity by the decay, restores its colour and removes the marker. |
| Collisions.GrazeRoundTrip | src/main.rs:1325-1351 | Entering in one frame and leaving in a later one gives the bullet back its exact speed, colour and unmarked state, and counts one graze. |
| Collisions.EnterAndLeaveInOneFrame | src/main.rs:1325-1351 | A bullet that enters and leaves in the same frame stays slowed, bloomed and marked. |
| Collisions.Bomb | src/main.rs:1282-1286 | A bomb never takes the count below 0, nor above the previous positive count. |
| Collisions.BombsSpent | src/main.rs:1285 | `k` bombs from `b >= 0` leave `max(b - k, 0)`: exactly one is spent while any is left. |
| Collisions.Stage.constructor | src/main.rs:1593-1597 | The game starts with 2 lives, 3 bombs, and no power, graze or points. |
| Collisions.Stage.ApplyCommand | src/main.rs:1076-1079 | One queued command is applied in place. |
| Collisions.Stage.ApplyCommands | src/main.rs:1166-1170 | The queue is applied in order and emptied. |
| Collisions.Stage.HitEnemy | src/main.rs:946-1079 | A bullet reaching an enemy, in place: the enemy loses one health, its rolled drops are added and its despawn queued when that leaves it at 0 or below, and the bullet's despawn is queued. An invincible enemy is unaffected. |
| Collisions.Stage.HitThePlayer | src/main.rs:1086-1170 | A bullet reaching the player, in place: a life is lost (never below 0), power drops to 0 with half of it, rounded up, dropped as items, and the hit and the bullet's despawn are queued. An invincible player is unaffected. |
| Collisions.Stage.HitEvent | src/main.rs:937-1175 | One event of `bullet_hit`, applied in place. |
| Collisions.Stage.BulletHit | src/main.rs:924-1177 | The in-place event loop, followed by the queued commands. |
| Collisions.Stage.ItemEvent | src/main.rs:1188-1204 | One event of `item_hit`, applied in place. |
| Collisions.Stage.ItemHit | src/main.rs:1179-1207 | The in-place event loop, followed by the queued commands. |
| Collisions.Stage.GrazeEvent | src/main.rs:1318-1356 | One event of `player_graze`, applied in place. |
| Collisions.Stage.PlayerGraze | src/main.rs:1304-1358 | The in-place event loop, followed by the queued commands. |
| Collisions.Stage.PlayerBomb | src/main.rs:1282-1286 | Only the bomb count changes. |
| Bounds.Abs | src/main.rs:1240 | `f32::abs`. |
| Bounds.OutOfBounds | src/main.rs:1238-1241 | An entity is out of bounds iff it lies outside the closed rectangle of half the window plus the margin, on either axis. |
| Bounds.Leaving | src/main.rs:1232-1247 | Never more despawns than entities in the query. |
| Bounds.LeavingExactly | src/main.rs:1238-1244 | An entity is despawned iff it is further than half the window plus the margin from the centre on some axis. |
| Bounds.MarginMonotone | src/main.rs:1257-1279 | A wider margin despawns less, so items (200) outlive enemies (100), which outlive bullets (0). |
| Bounds.InsideStays | src/main.rs:1238-1244 | An entity inside the window is never despawned. |
| Bounds.DespawnOutOfBounds | src/main.rs:1232-1247 | The loop issues exactly the despawns of `Leaving`, in query order. |

## Left out

- ECS and Rapier plumbing are not modelled: schedules, run conditions, queries and `StateScoped`. Collision events are given as sequences of `Started`/`Stopped` pairs. How Rapier generates them, and what collision groups mean for interaction, is not modelled.
- Float numerics are not modelled: velocities, angles, homing and spiral steering, particles, colours and alpha easing. A graze scales velocities as exact reals, so the model does not capture `f32` rounding in `v * 0.7 / 0.7`. The bloom is an opaque `Bloom` colour.
- The laser row counts use exact rational progress in milliseconds. `f32` rounding of the progress before `ceil` is not modelled.
- Randomness is not modelled. The item drops take the random draws as parameters. Particle effects, the hit particle and enemy spawning are not modelled.
- `i32` overflow of counters and health is not modelled. The model uses unbounded integers.
- Bevy panics on an insert into an entity despawned earlier in the same command queue. Collisions.ApplyOne skips such a command instead.
- Collisions.HitStep: `player.get_single()` failing with more than one player is not modelled. The world holds at most one player.
- The `Invincible` timer that later removes the player's invincibility, and the player's hiding and respawn position, are not modelled.
- Timers.Tick: paused timers and sub-millisecond durations are not modelled. The source never pauses a timer.
- Support units are modelled by their side and shot budget. Their lerp, rotation and focus movement are not modelled.
- Shooting.Shooter.Shoot records each fired bullet's offset and groups. The bullet's kind, direction and velocity are not modelled.
- AsciiAnimation.AnimationEntity.Play and its constructor require a frame store large enough for every frame. An asset with too few cells would panic in the source's index.
- AsciiAnimation.AnimationEntity.Play requires `frame_num > 0`. With `frame_num == 0` the source ticks the timer normally, then panics on the `% frame_num` at src/ascii_animation.rs:158 on the first tick where the timer just finished. That panic is not modelled.
- Key events are passed to each editor input run. The persistent event cursor is not modelled. An inactive input returns before reading, so in the source it can later read events up to two frames old.
- Asset loading (the RON loader) and all `setup*` layout are not modelled. `main_menu_quit`, backgrounds, pause and the camera are not modelled either.
