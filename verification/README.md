# GLogiK, modelled and proved in Dafny

GLogiK is a daemon and a desktop service for Logitech gaming keyboards with macro keys and an LCD
screen. This project models the parts of it that carry state and arithmetic, and proves what they
guarantee.

- **Macros.** The daemon records key events, repairs the macro (a missing release is appended, a
  redundant one erased, a macro that is too long is cut) and sends it to the service, which repairs
  it again and stores it. `MacroRepair` follows the vectors of the repair step by step, `MacroSpec`
  says what the repair means in one pass, `MacroTheorems` says what callers get, and `MacroService`
  follows a macro from the recorder to its bank.
- **Messages.** D-Bus messages are flattened into one stack per type, reversed, and popped. `Wire`
  has the message trees and the readers, `ArgBaseModule` the decoder and the shared stacks,
  `RoundTrip` and `Arguments` what can be read back.
- **The LCD.** `Bits`, `Font`, `Printing` and `Strings` take a string down to pixels of a frame,
  `Screen` takes the frame to the bytes of the LCD, `Animation` says which frame of a plugin a call
  shows, `Rotation` and `RotationRuns` which plugin.
- **Keys.** `Recorder` turns keyboard reports into recorded events and `Typing` says which typing the
  recorded and checked macro keeps; `Sessions` says what a recording and a run of the listening
  loop send, `KeyboardDriverModule` has the LEDs, the macro record mode and the loop.
- **Registries.** `ClientRegistry` has the clients of the daemon, `DeviceRegistry` its devices.

Code that changes vectors, stacks, maps, counters or arrays in place is modelled by methods and
classes with loops, each proved equal to a function of its inputs or of the old state; the theorems
are about those functions. Runs are sequences of calls whose outside outcomes (memory, USB, threads,
detected devices, the client ID drawn) are arguments. Allocation failures, exceptions and refusals
that the code handles are modelled as results.

Some properties one might expect do not hold of the code, and are replaced by their exact condition:

- a checked macro may still hold keys (`MacroTheorems.CheckedBalancedExactly`, with the witness
  `MacroTheorems.CutMayHoldKeys`);
- a message is not always read back once it holds a string array (`Arguments.MessageReadBack` for each
  message, `Arguments.ReadBackExactly` for its types, with a witness for every unsafe sequence of types
  in `Arguments.UnsafeBreaks`);
- a disabled LCD plugin may be shown after a change of mask (`RotationRuns.AfterMaskChange`, with the
  witness `RotationRuns.LockedWrapShowsDisabled`);
- a text that is no wider than the screen may lose its last character (`Strings.CenteredMargins`, with
  the witness `Strings.ExactWidthIsCut`);
- modifiers pressed and released at once are not seen as such (`Recorder.SeenExactly`);
- a device the user stops does not always stay stopped until the user starts it
  (`DeviceRegistry.StaysStoppedExactly`, with the witness `DeviceRegistry.ResumeStartsStopped`).

Where the source comments on itself and does otherwise, the model follows the code. The comment that
ends `handleModifierKeys` says that its warning shows a modifier pressed in the very event in which
another is released; the difference always reaches zero, so the warning is never given, and such an
event is recorded as other modifiers instead. `fillInArguments` reverses the int32 stack with the other
ones but does not clear it before; the model keeps both.

## Model

| member | source | states |
|---|---|---|
| MacroRepair.FillInVectors | src/lib/shared/GKeysMacro.cpp:61-75 | splits a macro into its presses and its releases, each with its position, in order |
| MacroRepair.FindLaterRelease | src/lib/shared/GKeysMacro.cpp:87-96 | the inner loop finds the first release of the same key that comes later, or none |
| MacroRepair.OpenPress | src/lib/shared/GKeysMacro.cpp:85-104 | one turn of the loop over the presses, on the list of releases left: the release it erases is the first later redundant one of that key, and if there is none the press is the next one to be closed at the end |
| MacroRepair.EraseRedundant | src/lib/shared/GKeysMacro.cpp:106-118 | erasing by stored index from the back removes exactly the releases that close no press, whatever was appended behind |
| MacroRepair.RemoveRedundant | src/lib/shared/GKeysMacro.cpp:106-118 | the reversed erasing loop: no stored index has moved when its turn comes |
| MacroRepair.ScanIsRepair | src/lib/shared/GKeysMacro.cpp:77-119 | matching by position is the one-pass queue: a release is kept only if a press of its key is pending, and every pending press gets one release with interval 1, oldest first |
| MacroRepair.FixMacroReleaseEvents | src/lib/shared/GKeysMacro.cpp:77-119 | the nested loops, the appends and the erasures by index turn any macro into its one-pass repair |
| MacroRepair.LoopStops | src/lib/shared/GKeysMacro.cpp:155-171 | closed form of the number of indexes left when the pairwise erasing loop stops |
| MacroRepair.EraseKeyed | src/lib/shared/GKeysMacro.cpp:155-171 | erasing the largest sorted indexes keeps all unknown events and the first presses and releases, not matched pairs |
| MacroRepair.CollectIndexes | src/lib/shared/GKeysMacro.cpp:136-149 | the collected indexes are exactly the positions of the presses and releases that pair up, in any macro; all keyed positions when it is balanced |
| MacroRepair.PairsAreLeft | src/lib/shared/GKeysMacro.cpp:136-149 | what the scan neither finds redundant nor leaves open is what the loop collects, counted position by position |
| MacroRepair.SortIndexes | src/lib/shared/GKeysMacro.cpp:151-151 | sorting the collected indexes gives the positions that pair up, strictly ascending |
| MacroRepair.FixMacroSize | src/lib/shared/GKeysMacro.cpp:121-181 | for every macro: the positions that pair up are erased two at a time from the largest down, then the end is cut off, and at most 23 events are left; a balanced macro comes out as the closed form of the cut |
| MacroRepair.CheckMacro | src/lib/shared/GKeysMacro.cpp:36-59 | for every macro the whole check, step by step on its vectors, is the one-pass repair followed by the closed form of the cut |
| MacroSpec.BalancedMeaning | src/lib/shared/GKeysMacro.cpp:85-118 | balanced by counting (no prefix releases a key more often than it pressed it, totals equal) is the same as playing without a redundant release and ending with no key held |
| MacroSpec.RepairBalances | src/lib/shared/GKeysMacro.cpp:77-119 | the repaired macro is balanced, and a macro is left alone exactly if it was balanced already |
| MacroSpec.RepairKeeps | src/lib/shared/GKeysMacro.cpp:77-119 | presses and unknown events stay, in order; the length is twice the presses plus the unknown events |
| MacroSpec.ClosingIs | src/lib/shared/GKeysMacro.cpp:97-103 | the releases appended: one per key still held, the oldest key first, each with interval 1 |
| MacroTheorems.RepairSplits | src/lib/shared/GKeysMacro.cpp:97-118 | the repair is the macro without its redundant releases, then one release for each key still held; no press is lost |
| MacroTheorems.RepairIsMinimal | src/lib/shared/GKeysMacro.cpp:84-118 | of all balanced macros that are got by erasing releases and adding releases anywhere, the repair erases the fewest releases of each key and adds the fewest |
| MacroTheorems.NoMatchingNeedsLess | src/lib/shared/GKeysMacro.cpp:84-118 | for each key the repair adds at most one release per press, and erases at most one per release, that an assignment of later releases leaves alone |
| MacroTheorems.GreedyIsAhead | src/lib/shared/GKeysMacro.cpp:84-104 | after every prefix, the greedy matching has paired at least as many presses of each key as any assignment of distinct later releases |
| MacroTheorems.PairingIsMaximum | src/lib/shared/GKeysMacro.cpp:84-104 | no assignment of distinct later releases of the same key pairs more presses than the repair does |
| MacroTheorems.CheckedSize | src/lib/shared/GKeysMacro.cpp:52-58 | a checked macro has at most 23 events, has 22 or 23 if it had to be cut, and never releases a key that is not held |
| MacroTheorems.CheckedCut | src/lib/shared/GKeysMacro.cpp:121-181 | without unknown events, a macro that is too long is cut to exactly the first 22 events of its repair |
| MacroTheorems.CheckedIdempotent | src/lib/shared/GKeysMacro.cpp:36-59 | checking twice is checking once, for every macro, those with unknown events and those that are cut included |
| MacroTheorems.CheckedBalancedExactly | src/lib/shared/GKeysMacro.cpp:121-181 | read off the macro before the check: the checked macro releases every key it presses if and only if the repair fits, or there are at least 24 unknown events, or some prefix with as many presses as there is room for leaves no key held |
| MacroTheorems.CutPrefix | src/lib/shared/GKeysMacro.cpp:155-171 | the cut of the repaired macro falls behind a prefix of the macro itself that holds the same keys, or behind its last press |
| MacroTheorems.PrefixCut | src/lib/shared/GKeysMacro.cpp:155-171 | and behind any prefix, cutting after the keyed events that are not redundant in it leaves the same keys held |
| MacroTheorems.CutMayHoldKeys | src/lib/shared/GKeysMacro.cpp:155-171 | so balance is not guaranteed: twelve presses of distinct keys and their releases come out as twelve presses and ten releases |
| MacroService.StoreMacro | src/bin/service/GKeysEventManager.cpp:160-197 | which of the errors is thrown, in the order of the guards; otherwise the key holds the macro as it is, and every other key of every bank has the event it had |
| MacroService.SetMacro | src/bin/service/GKeysEventManager.cpp:101-117 | the size guard is never hit after the service has repaired its copy; the key gets the checked macro, and every other key of every bank has the event it had |
| MacroService.ClearMacro | src/bin/service/GKeysEventManager.cpp:120-158 | empties the macro of one key, which becomes inactive and keeps its command, tells whether there was one, and fails exactly for an unknown key or bank; every other key of every bank has the event it had |
| MacroService.ReceiveMacro | src/lib/dbus/events/SIGsGM2v.cpp:42-51 | the callback reads device, key and macro off the shared stacks in the order of the message |
| MacroService.RecordToStore | src/bin/daemon/keyboardDriver.cpp:467-490 | from the recorder to the bank, for every recorded macro, key and bank: the key ends up with exactly the macro the daemon repaired, inactive when nothing is left of it; there are the same banks with the same keys, and every other key has the event it had |
| ArgBaseModule.ArgBase.DecodeArgument | src/lib/dbus/ArgTypes/ArgBase.cpp:38-188 | decoding ends, and pushes the leaves of the value, each once and in pre-order; a struct leaves the shared iterator behind its last field |
| ArgBaseModule.ArgBase.DecodeItems | src/lib/dbus/ArgTypes/ArgBase.cpp:103-120 | the loop over a container pushes the leaves of all its items |
| ArgBaseModule.ArgBase.DecodeStructs | src/lib/dbus/ArgTypes/ArgBase.cpp:156-172 | the struct case goes on with every container that follows on its level, although the array loop advances the same iterator: no value inside is skipped and none read twice |
| ArgBaseModule.ArgBase.FillInArguments | src/lib/dbus/ArgTypes/ArgBase.cpp:190-225 | the stacks hold the reversed leaves of the message; the int32 stack is not cleared, as in the code |
| ArgBaseModule.MessageIter.Next | src/lib/dbus/ArgTypes/ArgBase.cpp:118-118 | moves to the next value of a container, or stays behind the last one |
| ArgBaseModule.ArgBase.GetNextByte | src/lib/dbus/ArgTypes/uint8.cpp:50-56 | pops a byte, or fails on an empty stack |
| ArgBaseModule.ArgBase.GetNextUInt16 | src/lib/dbus/ArgTypes/uint16.cpp:52-58 | pops a uint16, or fails on an empty stack |
| ArgBaseModule.ArgBase.GetNextUInt64 | src/lib/dbus/ArgTypes/uint64.cpp:52-58 | pops a uint64, or fails on an empty stack |
| ArgBaseModule.ArgBase.GetNextBoolean | src/lib/dbus/ArgTypes/boolean.cpp:48-55 | pops a boolean, or fails on an empty stack |
| ArgBaseModule.ArgBase.GetNextString | src/lib/dbus/ArgTypes/string.cpp:68-93 | pops a length, then a string unless the length is 0; fails on an empty stack |
| ArgBaseModule.ArgBase.GetNextStringArray | src/lib/dbus/ArgTypes/stringArray.cpp:71-95 | takes the last strings of the stack, in reverse, and leaves the lengths of those strings where they are |
| ArgBaseModule.ArgBase.GetNextGKeysID | src/lib/dbus/ArgTypes/GKeysID.cpp:41-64 | pops a byte and refuses it exactly if it names no key |
| ArgBaseModule.ArgBase.GetNextKeyEvent | src/lib/dbus/ArgTypes/macro.cpp:127-136 | one event of a macro, refused exactly if its kind is out of range |
| ArgBaseModule.ArgBase.GetNextMacro | src/lib/dbus/ArgTypes/macro.cpp:117-163 | the do/while loop that reads events until the byte stack is empty, or until the given size |
| ArgBaseModule.ArgBase.GetNextLCDPP | src/lib/dbus/ArgTypes/LCDPPArray.cpp:131-137 | one plugin: number, name and description |
| ArgBaseModule.ArgBase.GetNextLCDPPArray | src/lib/dbus/ArgTypes/LCDPPArray.cpp:113-155 | reads as many plugin properties as announced, or fails |
| ArgBaseModule.ArgBase.GetNextGKBinary | src/lib/dbus/ArgTypes/DepsMap.cpp:186-209 | a binary, refused exactly if it is out of range or the invalid one |
| ArgBaseModule.ArgBase.GetNextDependency | src/lib/dbus/ArgTypes/DepsMap.cpp:235-239 | one dependency and its two versions |
| ArgBaseModule.ArgBase.GetNextBinaryDeps | src/lib/dbus/ArgTypes/DepsMap.cpp:228-243 | a binary with as many dependencies as announced |
| ArgBaseModule.ArgBase.GetNextGKDepsMap | src/lib/dbus/ArgTypes/DepsMap.cpp:214-254 | the nested loops that rebuild the dependency map, with all their failures |
| RoundTrip.FillIsPending | src/lib/dbus/ArgTypes/ArgBase.cpp:190-225 | filling the stacks from a message leaves them as a queue of its leaves, type by type |
| RoundTrip.Int32Stays | src/lib/dbus/ArgTypes/ArgBase.cpp:194-221 | numbers left on the int32 stack stay there, in front of those of the message |
| RoundTrip.MissingArguments | src/lib/dbus/ArgTypes/LCDPPArray.cpp:113-155 | what each reader says when the arguments it needs are missing |
| RoundTrip.ReadStringBack | src/lib/dbus/ArgTypes/string.cpp:36-93 | any string, the empty one sent as a bare number included, is read back and leaves the rest of the stacks as they were |
| RoundTrip.ReadMacroBack | src/lib/dbus/ArgTypes/macro.cpp:40-163 | the loop that stops on an empty byte stack stops at the end of the macro |
| RoundTrip.ReadSizedBack | src/lib/dbus/ArgTypes/macro.cpp:117-163 | a macro read with its size stops there, in front of whatever follows |
| RoundTrip.ReadKeyEventBack | src/lib/dbus/ArgTypes/macro.cpp:80-136 | an event sent as a struct of two bytes and a uint16 is read back |
| RoundTrip.MacroMessageReadBack | src/lib/dbus/ArgTypes/macro.cpp:40-163 | device, key and macro sent together are read back exactly when the key is valid and the macro not empty, although the key shares the byte stack with the events; reading fails otherwise |
| RoundTrip.LCDPPArrayReadBack | src/lib/dbus/ArgTypes/LCDPPArray.cpp:40-155 | a message that begins with plugin properties, of any number, gives them back from the stacks it fills, whatever the int32 stack held |
| RoundTrip.ReadLCDPPArrayBack | src/lib/dbus/ArgTypes/LCDPPArray.cpp:40-155 | plugin properties are read back in front of whatever follows them |
| RoundTrip.DepsMapReadBack | src/lib/dbus/ArgTypes/DepsMap.cpp:36-254 | a message that begins with a dependency map gives it back from the stacks it fills exactly when the map has no entry for the invalid binary; reading fails otherwise |
| RoundTrip.ReadDepsMapBack | src/lib/dbus/ArgTypes/DepsMap.cpp:36-254 | a dependency map is read back in front of whatever follows it, or reading fails |
| RoundTrip.ArraysIgnoreInt32 | src/lib/dbus/ArgTypes/ArgBase.cpp:194-221 | numbers left on the int32 stack change neither the outcome of a read nor the other stacks |
| RoundTrip.MacroMessageWellFormed | src/lib/dbus/ArgTypes/macro.cpp:40-111 | what is appended has the shape the decoder needs: structs come in arrays of structs |
| RoundTrip.MacroLayout | src/lib/dbus/ArgTypes/macro.cpp:78-82 | what goes over the bus for a macro, value by value: device, key, then code, kind and interval of each event |
| RoundTrip.LCDPPLayout | src/lib/dbus/ArgTypes/LCDPPArray.cpp:40-110 | the same for plugin properties |
| RoundTrip.DepsLayout | src/lib/dbus/ArgTypes/DepsMap.cpp:36-181 | the same for a dependency map |
| RoundTrip.ArraysWellFormed | src/lib/dbus/ArgTypes/DepsMap.cpp:36-181 | the same for dependency maps and plugin properties |
| Arguments.ReadStringsBack | src/lib/dbus/ArgTypes/stringArray.cpp:35-95 | an array of non-empty strings is read back, and the lengths of its strings stay on the uint64 stack |
| Arguments.ReadSafe | src/lib/dbus/ArgTypes/ArgBase.cpp:62-225 | a message whose types are safe is read back whatever its values and whatever lengths were left behind |
| Arguments.UnsafeBreaks | src/lib/dbus/ArgTypes/stringArray.cpp:71-95 | for every unsafe sequence of types there is a message that is not read back |
| Arguments.ReadBackExactly | src/lib/dbus/ArgTypes/ArgBase.cpp:62-225 | the exact condition on argument types: every message of strings, numbers, bytes, booleans and string arrays is read back from the stacks it fills, whatever the int32 stack held, if and only if no string array is followed by a string, a uint64 or another string array |
| Arguments.MessageReadBack | src/lib/dbus/ArgTypes/ArgBase.cpp:62-225 | the exact condition on one message: it is read back from the stacks it fills if and only if each argument finds, behind the lengths that arrays of strings before it left there, a number that means what its own means: the same number for a uint64 or an array, and for a string one that is 0 exactly if the string is empty |
| Arguments.ArrayThenStrings | src/lib/dbus/ArgTypes/stringArray.cpp:35-95 | so an array of strings followed by any number of strings that are not empty is read back, although every length popped for them is the wrong one |
| Arguments.ArgsWellFormed | src/lib/dbus/ArgTypes/stringArray.cpp:35-69 | such messages have the shape the decoder needs |
| Font.LineIndexIs | src/bin/daemon/LCDPlugins/PBMFont.cpp:217-232 | the 16-bit index of a line never wraps for a character on the bitmap, and its row is on the bitmap |
| Font.LineShowsGlyph | src/bin/daemon/LCDPlugins/PBMFont.cpp:217-305 | for widths 5, 6 and multiples of 8 and any bitmap, each bit of the extracted byte is the pixel of the character at that column and line, right-aligned, with nothing before it |
| Bits.BlitFirstBits | src/bin/daemon/LCDPlugins/PBMFont.cpp:187-194 | masking, shifting and merging one glyph byte keeps the pixels before it, shows its pixels and clears the rest of the byte |
| Bits.BlitSecondBits | src/bin/daemon/LCDPlugins/PBMFont.cpp:188-191 | the next byte holds the pixels that did not fit, then nothing |
| Printing.BlitPixel | src/bin/daemon/LCDPlugins/PBMFont.cpp:183-195 | drawing one byte of a line, on every pixel of the frame: unchanged outside its columns and row, the glyph inside, cleared to the end of the last byte |
| Printing.PBMFont.BlitOnFrame | src/bin/daemon/LCDPlugins/PBMFont.cpp:184-194 | the writes of one glyph byte to one or two bytes of the frame, none of them out of range |
| Printing.PBMFont.DrawCharacter | src/bin/daemon/LCDPlugins/PBMFont.cpp:181-197 | the loops over the lines of a character and the bytes of a line draw the whole glyph, and no byte overwrites an earlier one of its line |
| Printing.PBMFont.PrintCharacterOnFrame | src/bin/daemon/LCDPlugins/PBMFont.cpp:133-215 | a character that is unknown or does not fit is refused without touching the frame; otherwise every pixel of the frame is what the glyph makes of it, and the position moves by the advance of the character |
| Printing.PBMFont.GetCenteredXPos | src/bin/daemon/LCDPlugins/PBMFont.cpp:111-124 | half of what the advances of all characters leave of the screen, in 16 bits |
| Printing.PBMFont.GetCenteredYPos | src/bin/daemon/LCDPlugins/PBMFont.cpp:126-131 | half of the height the font leaves |
| Printing.PBMFont.WriteStringOnPBMFrame | src/bin/daemon/LCDPlugins/LCDPlugin.cpp:212-247 | every pixel of the frame after a string, from a given or a centered position, is the one the pixel specification gives; the first refused character ends the string |
| Strings.PartIsPrinted | src/bin/daemon/LCDPlugins/LCDPlugin.cpp:239-246 | what is printed of a string is a prefix whose characters are known and fit, and it looks as if only that prefix had been written |
| Strings.PartIsLongest | src/bin/daemon/LCDPlugins/LCDPlugin.cpp:239-246 | and it is the longest such prefix |
| Strings.PrintableExactly | src/bin/daemon/LCDPlugins/PBMFont.cpp:141-160 | a string is printed whole exactly if its characters are known and the last one fits where it comes |
| Strings.StringShows | src/bin/daemon/LCDPlugins/LCDPlugin.cpp:229-243 | from the start of a character to the start of the next one the frame shows that glyph, although glyphs overlap; the last glyph shows in full |
| Strings.StringTail | src/bin/daemon/LCDPlugins/PBMFont.cpp:187-194 | after the last glyph, the rest of the last byte touched is cleared |
| Strings.OutsideString | src/bin/daemon/LCDPlugins/PBMFont.cpp:181-196 | every other pixel is unchanged |
| Strings.StringOnRow | src/bin/daemon/LCDPlugins/PBMFont.cpp:151-160 | no write leaves its row or the visible lines |
| Strings.CenteredMargins | src/bin/daemon/LCDPlugins/PBMFont.cpp:111-124 | a centered text is printed whole exactly if its characters are known and its last one leaves room for its cell, a condition on the advances alone; its margins then differ by at most one |
| Strings.VerticalMargins | src/bin/daemon/LCDPlugins/PBMFont.cpp:126-131 | centered text is as far from the top of the screen as from its bottom, but for one line |
| Strings.ExactWidthIsCut | src/bin/daemon/LCDPlugins/PBMFont.cpp:151-155 | a text exactly as wide as the screen loses its last character |
| Strings.TooWideIsNotPrinted | src/bin/daemon/LCDPlugins/PBMFont.cpp:111-124 | a text wider than the screen gets a wrapped position: exactly how far it may be over before anything is printed again |
| Strings.ProgramAdvances | src/bin/daemon/LCDPlugins/PBMFont.cpp:204-214 | how far each character moves the position in the three fonts of the program, the five wide ones included |
| Strings.ProgramFonts | src/bin/daemon/LCDPlugins/fonts.hpp:46-106 | the three fonts of the program meet what the extraction needs, for any bitmap of their size |
| Screen.LCDByteBits | src/bin/daemon/LCDScreenPluginsManager.cpp:338-370 | bit by bit, the LCD byte stacks eight PBM rows |
| Screen.DumpShowsFrame | src/bin/daemon/LCDScreenPluginsManager.cpp:338-370 | bit k of LCD byte (row, col) is PBM pixel (8 row + k, col) |
| Screen.DumpPBMDataIntoLCDBuffer | src/bin/daemon/LCDScreenPluginsManager.cpp:338-370 | the triple loop shows the frame on the LCD pixel for pixel, writes each payload byte exactly once, in order, and leaves the 32 header bytes alone |
| Screen.DumpInverse | src/bin/daemon/LCDScreenPluginsManager.cpp:338-370 | the dump has an inverse: a buffer shows a frame if and only if undumping it gives that frame |
| Screen.FillLCDBuffer | src/bin/daemon/LCDScreenPluginsManager.cpp:243-269 | the buffer sent shows the frame, or a blank screen, behind an empty header with the magic byte |
| Screen.ShowString | src/bin/daemon/LCDScreenPluginsManager.cpp:243-269 | printing and dumping together: each LCD pixel is the one the string leaves on the frame |
| Animation.ShownByCall | src/bin/daemon/LCDPlugins/LCDPlugin.cpp:112-129 | after a reset, call k is on the frame whose cumulative duration interval contains (k - 1) modulo the total duration |
| Animation.LCDPlugin.CheckPBMFrameIndex | src/bin/daemon/LCDPlugins/LCDPlugin.cpp:452-463 | wraps from behind the last frame to the first one, and throws exactly if there is no frame |
| Animation.LCDPlugin.ResetPBMFrameIndex | src/bin/daemon/LCDPlugins/LCDPlugin.cpp:80-84 | back to the first frame, or a throw exactly if there is none |
| Animation.LCDPlugin.PrepareNextPBMFrame | src/bin/daemon/LCDPlugins/LCDPlugin.cpp:112-129 | one step of the animation; the index stays in bounds and agrees with the iterator |
| Animation.LCDPlugin.Play | src/bin/daemon/LCDPlugins/LCDPlugin.cpp:42-129 | a reset and any number of calls end on the frame of the closed form |
| Rotation.FirstOnIs | src/bin/daemon/LCDScreenPluginsManager.cpp:215-235 | the plugin found is the first enabled one after the current one in cyclic order |
| Rotation.SearchFails | src/bin/daemon/LCDScreenPluginsManager.cpp:215-235 | the search fails exactly when locked on a disabled plugin or when no plugin is enabled |
| Rotation.LCDScreenPluginsManager.FindPlugin | src/bin/daemon/LCDScreenPluginsManager.cpp:213-235 | the search loop ends, on the plugin the specification gives, and throws exactly when that has none |
| Rotation.LCDScreenPluginsManager.UnlockPlugin | src/bin/daemon/LCDScreenPluginsManager.cpp:128-142 | only the lock changes |
| Rotation.LCDScreenPluginsManager.GetCurrentPluginID | src/bin/daemon/LCDScreenPluginsManager.cpp:144-153 | the number of the current plugin, 0 without plugins |
| Rotation.LCDScreenPluginsManager.GetNextLCDScreenBuffer | src/bin/daemon/LCDScreenPluginsManager.cpp:187-264 | one call of the rotation: 16-bit counter, locking key, search, reset and animation |
| Rotation.LCDScreenPluginsManager.JumpToNextPlugin | src/bin/daemon/LCDScreenPluginsManager.cpp:155-168 | the current plugin is unlocked and has had its turn |
| Rotation.LCDScreenPluginsManager.SetDeviceLCDPluginsMask | src/bin/daemon/keyboardDriver.cpp:803-828 | the mask that is set, 3 by default, and the rotation it leaves |
| Rotation.DefaultMask | src/bin/daemon/keyboardDriver.cpp:807-811 | the default mask enables the plugins numbered 1 and 2 and no other one |
| RotationRuns.FirstTurnEnds | src/bin/daemon/LCDScreenPluginsManager.cpp:193-241 | from any unlocked position with an enabled plugin, whole turns start as soon as the current turn is over, and that turn begins anew if the next call wraps the 16-bit counter |
| RotationRuns.TurnEnds | src/bin/daemon/LCDScreenPluginsManager.cpp:212-240 | a turn lasts exactly the maximum number of frames of its plugin, and the next enabled plugin follows on its first frame |
| RotationRuns.WholeRun | src/bin/daemon/LCDScreenPluginsManager.cpp:187-264 | every call of the whole run: call j of the n-th turn shows the plugin of that turn on the frame its durations give |
| RotationRuns.TurnsGoAround | src/bin/daemon/LCDScreenPluginsManager.cpp:215-235 | turns go around the list: each enabled plugin has exactly one turn per round, in list order |
| RotationRuns.ShowsDisabledExactly | src/bin/daemon/LCDScreenPluginsManager.cpp:193-241 | in a run of any length, a disabled plugin that has to give way is shown again if and only if every search fails, because no plugin is enabled or the lock is set, until the 16-bit counter wraps |
| RotationRuns.RunShowsEnabled | src/bin/daemon/LCDScreenPluginsManager.cpp:212-240 | once the current plugin is enabled no run shows a disabled one, whatever its length and keys |
| RotationRuns.LockedShowsOne | src/bin/daemon/LCDScreenPluginsManager.cpp:199-241 | as long as the rotation is locked on an enabled plugin, this plugin is shown and no other, whatever the length of the run |
| RotationRuns.AfterMaskChange | src/bin/daemon/keyboardDriver.cpp:803-828 | after a change of mask, for every run: a disabled plugin is shown if and only if the current one is disabled, the run is longer than the counter can count, and no plugin is enabled or the locking key is pressed on the first call and not again until the counter wraps |
| RotationRuns.UnlockedShowsEnabled | src/bin/daemon/keyboardDriver.cpp:803-828 | so with a plugin enabled and the locking key not pressed, no run of any length shows a disabled plugin |
| RotationRuns.LockedWrapShowsDisabled | src/bin/daemon/LCDScreenPluginsManager.cpp:193-212 | a run that does show one: the locking key is pressed once, right after the mask has disabled the splash screen and left the system monitor enabled |
| Recorder.SeenExactly | src/bin/daemon/keyboardDriver.cpp:241-318 | the driver sees exactly the modifiers that changed if and only if they changed in one direction |
| Recorder.ModifierEvents | src/bin/daemon/keyboardDriver.cpp:264-317 | which modifier bit is which key |
| Recorder.ReportOrder | src/bin/daemon/keyboardDriver.cpp:329-403 | the order in which a report is recorded: modifiers first, then its keys from the last byte down |
| Recorder.OthersIgnored | src/bin/daemon/logitechG510.cpp:347-397 | a report whose first byte is not 1 is not recorded |
| Recorder.RecordsEverything | src/bin/daemon/keyboardDriver.cpp:329-403 | presses below 16 events and releases below 24 are all recorded, in order, behind what was there |
| Recorder.RecordKeepsLimits | src/bin/daemon/keyboardDriver.cpp:329-403 | never more than 24 events, only releases from position 16 on, and interval 1 for all events of a report after the first |
| Recorder.RunKeepsLimits | src/bin/daemon/keyboardDriver.cpp:329-403 | over any run of reports: the same limits, and the macro grows only at its end, by one burst of events for each report of which only the first has the time since the last report |
| Typing.ReportSlots | src/bin/daemon/keyboardDriver.cpp:241-403 | key by key, what is seen of a report never releases a key that is not held and leaves held exactly the keys of the report, provided modifiers change in one direction and no byte goes from one key to another |
| Typing.TypedIsKept | src/bin/daemon/keyboardDriver.cpp:329-403 | from reports to the stored macro: typing that starts and ends with no key held, in reports of standard keys as above and with at most 16 changes, is recorded as typed and is balanced, so the check leaves it as it is |
| Sessions.GKeyEnds | src/bin/daemon/keyboardDriver.cpp:440-507 | for every run of quiet polls: a G-key that ends a recording sends one signal, recorded with the macro that all the reports of the run spell, checked, or cleared if nothing is left of it |
| Sessions.OthersEnd | src/bin/daemon/keyboardDriver.cpp:445-507 | an M-key, the MR key, a request to stop, a reset or the end of the daemon ends a recording without a signal for it, whatever was recorded |
| Sessions.RecordingSends | src/bin/daemon/keyboardDriver.cpp:609-672 | from the MR key to the G-key, over the whole loop: the recording sends exactly that one signal, and the loop goes on with the same bank |
| Sessions.AbandonedSends | src/bin/daemon/keyboardDriver.cpp:609-672 | a recording that is left otherwise sends nothing for it; an M-key that ends it does what it does outside a recording |
| Sessions.ResetSends | src/bin/daemon/keyboardDriver.cpp:762-775 | a reset that ends a recording sends nothing for it, and turns the bank off |
| Sessions.KeysSend | src/bin/daemon/keyboardDriver.cpp:609-672 | outside a recording, key by key: which bank an M-key sends from each bank, that the first M-key goes before the others, and that a G-key is sent after them |
| Sessions.OthersSend | src/bin/daemon/keyboardDriver.cpp:609-746 | reports, media keys and requests to stop send nothing outside a recording |
| Sessions.TypedIsSent | src/bin/daemon/keyboardDriver.cpp:421-512 | from the keyboard to the signal: typing that starts and ends with no key held, in reports the recorder can follow and with 1 to 16 changes, is sent as it was typed, balanced, for the G-key pressed |
| KeyboardDriverModule.KeyboardDriver.RecordModifiers | src/bin/daemon/keyboardDriver.cpp:264-317 | the loop over the modifiers records them all and always reaches a zero difference, so its final warning cannot be reached |
| KeyboardDriverModule.KeyboardDriver.HandleModifierKeys | src/bin/daemon/keyboardDriver.cpp:241-318 | the modifiers seen are recorded, first with the time since the last report |
| KeyboardDriverModule.KeyboardDriver.RecordKeys | src/bin/daemon/keyboardDriver.cpp:353-402 | the loop over the key bytes; a byte that goes from one key to another records nothing |
| KeyboardDriverModule.KeyboardDriver.FillStandardKeysEvents | src/bin/daemon/keyboardDriver.cpp:329-403 | a report records its modifiers, then its keys from the last byte down to the third |
| KeyboardDriverModule.KeyboardDriver.ToggleMxKey | src/bin/daemon/keyboardDriver.cpp:168-183 | an M-key lights its LED alone, or turns all off if it was lit, and tells the bank |
| KeyboardDriverModule.KeyboardDriver.UpdateMxKeys | src/bin/daemon/keyboardDriver.cpp:167-196 | the M-key part of it, key by key |
| KeyboardDriverModule.KeyboardDriver.UpdateMRKey | src/bin/daemon/keyboardDriver.cpp:223-236 | the MR key toggles the MR LED as it was before the M-keys; no bank LED changes |
| KeyboardDriverModule.KeyboardDriver.UpdateDeviceMxKeysLedsMask | src/bin/daemon/keyboardDriver.cpp:159-239 | the bank lit, the MR LED and the signal sent after every combination of keys; key by key, M1 lights the LED of M1 alone and sends bank M1, or puts it out and sends bank M0 if it was lit, and M2 and M3 do so when no lower one is pressed; with none of them these LEDs stay |
| KeyboardDriverModule.KeyboardDriver.GetPressedKeys | src/bin/daemon/logitechG510.cpp:347-397 | what one poll leaves: special keys, or a report while the MR LED is lit, recorded if its first byte names standard keys and kept for the next comparison either way |
| KeyboardDriverModule.KeyboardDriver.CheckGKey | src/bin/daemon/logitechG510.cpp:213-222 | a G-key is noted exactly if one is pressed |
| KeyboardDriverModule.KeyboardDriver.External | src/bin/daemon/keyboardDriver.cpp:762-775 | a reset turns all LEDs off and ends a recording |
| KeyboardDriverModule.KeyboardDriver.SendMacro | src/bin/daemon/keyboardDriver.cpp:469-490 | the signal for the checked macro: recorded if anything is left of it, cleared otherwise |
| KeyboardDriverModule.KeyboardDriver.SendGKey | src/bin/daemon/keyboardDriver.cpp:650-672 | the signal for a G-key pressed outside a recording |
| KeyboardDriverModule.KeyboardDriver.EnterMacroRecordMode | src/bin/daemon/keyboardDriver.cpp:421-512 | whatever happens during a recording, it sends exactly what its event history says; when a G-key ends it that is one signal for this key, with the macro that the reports since its start spell, checked, or cleared if nothing is left of it; it leaves the keys and the report seen last, and an empty macro |
| KeyboardDriverModule.KeyboardDriver.RecordPoll | src/bin/daemon/keyboardDriver.cpp:440-507 | one poll of a recording either ends it, with what its event history says, or leaves the rest of that history to the other polls |
| KeyboardDriverModule.KeyboardDriver.HandleSpecialKeys | src/bin/daemon/keyboardDriver.cpp:631-672 | the special keys of a round: the LEDs, then the record mode or the G-key |
| KeyboardDriverModule.KeyboardDriver.Listen | src/bin/daemon/keyboardDriver.cpp:609-746 | one round of the loop sends exactly the bank switch of its keys, then the G-key or what the recording sends and the switch of the keys that end it; the MR LED is off afterwards however the recording was left |
| KeyboardDriverModule.KeyboardDriver.ListenLoop | src/bin/daemon/keyboardDriver.cpp:609-746 | every run of polls sends exactly the signals of its rounds; between two rounds at most one of M1, M2 and M3 is lit, the last bank switch sent is the bank lit, and every macro sent is checked, not empty and of a valid key; spelled out, a recording sends the macro of its reports or clears its key, and each M-key alone sends its own bank from an unlit mask |
| ClientRegistry.WithoutDeadKeeps | src/bin/daemon/clientsManager.cpp:320-361 | evicting unresponsive clients keeps exactly the others and the count |
| ClientRegistry.RegisterOutcome | src/bin/daemon/clientsManager.cpp:314-411 | what a registration does to each client: rejected exactly if a client that answers has the session, and then every client is unchecked and nothing else changes; otherwise the clients that do not answer go, and it succeeds exactly if memory and the ID drawn allow it |
| ClientRegistry.UpdateOutcome | src/bin/daemon/clientsManager.cpp:444-498 | an accepted state is stored and makes the client answer; no other client changes |
| ClientRegistry.ReachableValid | src/bin/daemon/clientsManager.cpp:314-521 | in every reachable registry sessions are pairwise distinct and the count is that of the active clients, so it never underflows |
| ClientRegistry.StaysAlive | src/bin/daemon/clientsManager.cpp:314-521 | a responsive client outlives any run in which no registration is rejected and it does not unregister |
| ClientRegistry.ReportingSaves | src/bin/daemon/clientsManager.cpp:328-351 | a client that reports an accepted state after a rejected registration is still registered after the next call, which may be a registration that is accepted, rejected or fails, unless it unregisters or another registration was rejected in between |
| ClientRegistry.SilenceEvicts | src/bin/daemon/clientsManager.cpp:320-361 | the next registration that is not rejected evicts exactly the clients that did not report; only the new client can have the ID of one of them |
| ClientRegistry.SilentIsEvicted | src/bin/daemon/clientsManager.cpp:320-361 | the run law of eviction: after a rejected registration, a client that reports no accepted state is gone after the next registration that is not rejected, whatever happens in between |
| ClientRegistry.RetrySucceeds | src/bin/daemon/clientsManager.cpp:320-411 | and the session that was rejected gets in the second time if none of its clients reports in between, exactly when memory and the ID drawn allow it |
| ClientRegistry.ClientsManager.FindSession | src/bin/daemon/clientsManager.cpp:320-352 | the scan of the clients finds the session if a responsive client has it, and lists all others that do not respond |
| ClientRegistry.ClientsManager.RegisterClient | src/bin/daemon/clientsManager.cpp:314-411 | registration with its rejection, evictions and failures, client by client: a rejection leaves every client as it was but for having to report itself; otherwise exactly the clients that answer stay, unchanged, and the new one comes; one broadcast for a rejection, one reset per active client evicted |
| ClientRegistry.ClientsManager.UnregisterClients | src/bin/daemon/clientsManager.cpp:354-361 | the evictions, in any order, remove exactly the clients listed |
| ClientRegistry.ClientsManager.UnregisterClient | src/bin/daemon/clientsManager.cpp:413-442 | removes one client and no other, with a reset exactly if it was active; the count stays at or above zero |
| ClientRegistry.ClientsManager.UpdateClientState | src/bin/daemon/clientsManager.cpp:444-498 | refuses exactly unknown states and clients; stores the state of this client, makes it answer and leaves all others alone; devices are reset exactly when no active client is left |
| ClientRegistry.ClientsManager.ToggleClientReadyPropertie | src/bin/daemon/clientsManager.cpp:500-521 | toggles one client, and nothing the count depends on |
| DeviceRegistry.ReachableValid | src/bin/daemon/devicesManager.cpp:158-482 | in every reachable state started and stopped devices are disjoint, the driver knows the started ones, and no device once known is lost |
| DeviceRegistry.SleepThenResume | src/bin/daemon/devicesManager.cpp:321-352 | suspend and resume restore the started and stopped devices if and only if no device that was started fails to be brought up; the driver then knows what it knew |
| DeviceRegistry.SleepUnplugResume | src/bin/daemon/devicesManager.cpp:321-482 | when devices are unplugged during the sleep, the others are restored, but for the started ones that fail to be brought up on resume, which are left stopped |
| DeviceRegistry.StaysStopped | src/bin/daemon/devicesManager.cpp:158-482 | a stopped device that is not noted as sleeping stays stopped, and out of the started ones, through every suspend and resume until it is started or unplugged |
| DeviceRegistry.StaysStoppedExactly | src/bin/daemon/devicesManager.cpp:158-482 | for every stopped device and every run that neither starts nor unplugs it: it is stopped in all of the run if and only if it is not noted as sleeping, or the first suspend or resume of the run is not a resume with which it opens |
| DeviceRegistry.ResumeStarts | src/bin/daemon/devicesManager.cpp:321-332 | resuming starts a stopped device exactly if it is noted as sleeping and opens, whoever stopped it last |
| DeviceRegistry.ResumeStartsStopped | src/bin/daemon/devicesManager.cpp:246-352 | so a device that is started by hand and stopped again between a suspend and the resume is started by the resume |
| DeviceRegistry.InitializeOutcome | src/bin/daemon/devicesManager.cpp:158-244 | where each detected device ends: a new one of the driver is started if it is to be opened and nothing fails, stopped if it is not to be opened, and not kept otherwise; what the driver then knows; no other device moves |
| DeviceRegistry.InitializeOneOutcome | src/bin/daemon/devicesManager.cpp:168-225 | the same for one device |
| DeviceRegistry.StartOutcome | src/bin/daemon/devicesManager.cpp:246-283 | starting by hand succeeds exactly if nothing fails, and moves this device only; what the driver knows after a failure |
| DeviceRegistry.StopOutcome | src/bin/daemon/devicesManager.cpp:285-319 | stopping moves this device only, and the driver forgets it |
| DeviceRegistry.SleepOutcome | src/bin/daemon/devicesManager.cpp:334-352 | suspending moves every started device to the stopped ones, notes it, and makes the driver forget it |
| DeviceRegistry.StopDeadOutcome | src/bin/daemon/devicesManager.cpp:354-394 | devices whose threads ended move to the stopped ones, all others stay |
| DeviceRegistry.UnplugOutcome | src/bin/daemon/devicesManager.cpp:396-482 | a scan moves exactly the devices that are gone to the unplugged ones, with what was known of them |
| DeviceRegistry.StatusFollows | src/bin/daemon/devicesManager.cpp:821-831 | each known device has one status, and it follows stopping, starting and unplugging |
| DeviceRegistry.InitializeStep | src/bin/daemon/devicesManager.cpp:166-226 | detected devices may be brought up one at a time, in any order: the result is that of all at once |
| DeviceRegistry.Driver.InitializeDevice | src/bin/daemon/keyboardDriver.cpp:931-971 | the driver knows the device afterwards, unless memory fails; nothing changes if it did already |
| DeviceRegistry.Driver.CloseDevice | src/bin/daemon/keyboardDriver.cpp:1021-1046 | the driver forgets the device |
| DeviceRegistry.Driver.OpenDevice | src/bin/daemon/keyboardDriver.cpp:974-1019 | an open that fails leaves the device initialized, unless it is the threads that fail |
| DeviceRegistry.DevicesManager.SearchSupportedDevices | src/bin/daemon/devicesManager.cpp:620-662 | of the devices found at an ID that was not detected before, the first one is kept |
| DeviceRegistry.DevicesManager.InitializeOneDevice | src/bin/daemon/devicesManager.cpp:168-225 | one detected device: skipped, or, if it is new, started exactly if it is to be opened and nothing fails and stopped exactly if it is not to be opened |
| DeviceRegistry.DevicesManager.InitializeEach | src/bin/daemon/devicesManager.cpp:166-226 | the loop over the detected devices, in any order |
| DeviceRegistry.DevicesManager.InitializeDevices | src/bin/daemon/devicesManager.cpp:158-244 | started and stopped devices are skipped; each new one is started if it is to be opened and nothing fails, or stopped if it is not to be opened; the clients are told exactly about those that were added; nothing stays detected |
| DeviceRegistry.DevicesManager.StartDevice | src/bin/daemon/devicesManager.cpp:246-283 | a stopped device moves to the started ones exactly if it is brought up |
| DeviceRegistry.DevicesManager.StopDevice | src/bin/daemon/devicesManager.cpp:285-319 | a started device moves to the stopped ones and the driver forgets it |
| DeviceRegistry.DevicesManager.StartSleepingDevices | src/bin/daemon/devicesManager.cpp:321-332 | starts the devices that slept, those that fail stay stopped |
| DeviceRegistry.DevicesManager.StopInitializedDevices | src/bin/daemon/devicesManager.cpp:334-352 | all started devices are stopped and noted; the final clearing of the started ones loses nothing |
| DeviceRegistry.DevicesManager.CheckInitializedDevicesThreadsStatus | src/bin/daemon/devicesManager.cpp:354-394 | hard stops exactly the started devices whose threads ended; every device looked up is still there |
| DeviceRegistry.DevicesManager.UnplugStartedDevices | src/bin/daemon/devicesManager.cpp:406-442 | the first loop moves exactly the started devices that are not detected |
| DeviceRegistry.DevicesManager.UnplugStoppedDevices | src/bin/daemon/devicesManager.cpp:446-467 | the second loop moves exactly the stopped ones |
| DeviceRegistry.DevicesManager.CheckForUnpluggedDevices | src/bin/daemon/devicesManager.cpp:396-482 | started and stopped become their old values restricted to the detected devices, the others are unplugged and announced, and nothing stays detected |
| DeviceRegistry.DevicesManager.GetDeviceStatus | src/bin/daemon/devicesManager.cpp:821-831 | the status the clients get |

## Left out

- Animation.ShownByCall: durations are 16-bit numbers, as in the code, and 0 is excluded; the plugins of the program add frames of 1 or 3 calls.
- Arguments.MessageReadBack: arrays of strings hold no empty string, for the reason given for Arguments.ReadBackExactly.
- Arguments.ReadBackExactly: arrays of strings hold no empty string, because libdbus refuses the number that stands for it where the signature of the container asks for a string.
- RoundTrip.LCDPPArrayReadBack: covers empty names and descriptions as well, whose number libdbus refuses inside the structs for the same reason; such a message is never sent.
- RoundTrip.DepsMapReadBack: covers empty strings as well, whose number libdbus refuses inside the structs for the same reason; such a message is never sent.
- ArgBaseModule.ArgBase.DecodeArgument: messages in which a struct is followed on its level by a value that is no container, or by an empty one, are excluded: the code would have libdbus enter it, which libdbus does not allow. The program appends structs inside arrays of structs only.
- ArgBaseModule.ArgBase.GetNextString: the warning for a string whose length is not the one announced is not modelled; nothing else depends on it.
- ArgBaseModule.ArgBase.GetNextLCDPPArray: the failure to reserve memory for an announced size beyond all limits is not modelled; it throws what running out of arguments throws.
- RotationRuns.WholeRun: no key is pressed and the mask does not change during the run.
- ClientRegistry.ReachableValid: the count is unbounded above; the code keeps it in an unsigned int.
- DeviceRegistry.Driver.InitializeDevice: the `GLogiKBadAlloc` that the manager of LCD plugins throws is not modelled. It is a `GLogiKExcept` and no `std::bad_alloc` (src/lib/utils/exception.hpp:75), so it leaves `initializeDevice`, and a device that was not to be opened is then not put among the stopped ones; the model has the `std::bad_alloc` that is caught there.
- DeviceRegistry.ReachableValid: one loaded driver, as `startMonitoring` loads; with several, the loop of `checkInitializedDevicesThreadsStatus` would look up a device it has just stopped.
- KeyboardDriverModule.KeyboardDriver.ListenLoop: one device and one sequential run; a reset or a request to leave the record mode from another thread happens between two rounds.
- libusb, hidapi, udev, libdbus, libevdev, file, inotify and process calls: foreign code; what a step depends on is an argument.
- Interleavings of the listening, LCD and D-Bus threads inside one step, mutexes, and the threads themselves.
- int32 and uint32 arguments, which have no decoding case; and the signature the decoder falls back on when an iterator reports no type.
- Broadcast signals that libdbus refuses to build: the code abandons them with a warning, the model has every signal sent.
- The widths of D-Bus booleans and of uint64 values, on which no arithmetic is done.
- The table from HID usages to key codes: any table of 256 codes.
- Time stamps: the milliseconds between two reports are an argument of the recording.
- What the plugins draw, their own failures, the progress bar and the padlock.
- Properties of started devices kept by each client, backlight colours, and the configuration files of the service.
- The device of a macro message and the current bank of the service: arguments of the end-to-end statement.
- Destructors, the sleep inhibition lock, the D-Bus event tables and introspection, the GUI and the launcher.
