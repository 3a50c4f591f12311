# vibepanel core in Dafny

A model of the decision logic of vibepanel, a Wayland status bar written in Rust. The bar shows workspaces, a window title, a clock, media, notifications, tray icons and quick-settings cards. Each Rust source file of that core has its own Dafny module, named after the file:

- `Config` and `Theme` model the `vibepanel-core` crate: validation, merging and resolving of the configuration, and colour parsing and theme sizes.
- `ConfigManager` models the reload path: the diffs that decide a theme reload or a bar rebuild.
- `LayoutMath`, `LayerShellPopover`, `BaseWidget`, `PopoverTracker`, `Spacer` and `UiHelpers` model bar and popover geometry and widget bookkeeping.
- Service reducers turn input events and property snapshots into state records:
  - `Network`, `Vpn` and `Bluetooth`;
  - `MediaService` (MPRIS player selection) and `NotificationService` (the notification store);
  - `Compositor`, `Niri` and `Hyprland` (workspace and window snapshots);
  - `BarManager` (one bar per monitor) and `Icons`.
- Widget modules hold the widgets' pure decisions:
  - `Battery`, `BatteryPopover`, `Calendar`, `Clock`, `Cpu`, `Memory`, `Osd` and `Tray`;
  - `Updates`, `WindowTitle`, `Workspace` and `MediaWidget`;
  - `NotificationCommon`, `NotificationToast`, `NotificationsWidget` and `NotificationsPopover`;
  - the quick-settings cards `AudioCard`, `MicCard`, `WifiCard`, `VpnCard` and `BluetoothCard`.
- Three shared modules hold no source behaviour of their own:
  - `Common`: `Option`, string, integer and `i32` helpers;
  - `Toml`: an already-parsed value tree;
  - `Sorting`: Rust's stable `sort_by`, counting, filtering and `str` ordering.

Everything is an immutable datatype with pure functions. A method appears only where the source runs a loop whose invariant is worth stating. I/O, D-Bus, sockets, threads and timers become parameters or input events. Where the program casts to `i32` or does `i32` arithmetic on configured values, the model wraps explicitly with `Common.WrapI32`. The one exception is `LayoutMath`, listed under "## Left out". `Common.WrapI32Sum`, `WrapI32Difference` and `WrapI32Twice` let a chain of wrapping steps be read as one wrap of the exact result.

Where the code and its own documentation disagree, the model follows the code. Each such case is listed under "## Findings". It is modelled twice: once as written, and once as evidently intended.

## Model

| member | source | states |
|---|---|---|
| AudioCard.VolumeLevel | crates/vibepanel/src/widgets/quick_settings/audio_card.rs:28-42 | muted exactly when muted or at volume 0; otherwise high from 66, medium from 33 to 65 and low from 1 to 32 |
| AudioCard.LevelMonotone | crates/vibepanel/src/widgets/quick_settings/audio_card.rs:28-42 | unmuted, a louder volume never shows a lower level |
| AudioCard.VolumeIconName | crates/vibepanel/src/widgets/quick_settings/audio_card.rs:28-42 | the icon is "audio-volume-<level>-symbolic" for the volume's level, and the muted icon whenever muted |
| AudioCard.ControlsFor | crates/vibepanel/src/widgets/quick_settings/audio_card.rs:298-341 | slider and mute button are sensitive exactly when the backend and the control are available, the row is disabled exactly otherwise, the hint shows exactly when the backend is there but the control is not, and slider, icon level and muted class follow the snapshot |
| AudioCard.HintOnlyWhenDisabled | crates/vibepanel/src/widgets/quick_settings/audio_card.rs:323-327 | the hint shows only when the controls are disabled |
| AudioCard.PopulateDevices | crates/vibepanel/src/widgets/quick_settings/audio_card.rs:267-294 | no devices gives the "none" placeholder; devices that are all unplugged give the "none available" placeholder; otherwise one row per device whose port is not known to be unplugged, in order |
| AudioCard.PopulateSinks | crates/vibepanel/src/widgets/quick_settings/audio_card.rs:259-295 | an unavailable backend shows "Audio unavailable"; otherwise the sink list as above with the output placeholders |
| AudioCard.RowActivated | crates/vibepanel/src/widgets/quick_settings/audio_card.rs:352-373 | a row index selects a device exactly when it is within the count of selectable devices, and the device named is a selectable one of the list |
| AudioCard.ClickSelectsShownDevice | crates/vibepanel/src/widgets/quick_settings/audio_card.rs:285-372 | clicking row i makes default the very device whose description row i shows |
| AudioCard.EverySelectableShown | crates/vibepanel/src/widgets/quick_settings/audio_card.rs:285-294 | every device not known to be unplugged gets a row |
| BarManager.MonitorKey | crates/vibepanel/src/services/bar_manager.rs:79-85 | a monitor's key is its connector name, else "unknown-" followed by digits |
| BarManager.UnknownKeysDistinct | crates/vibepanel/src/services/bar_manager.rs:79-85 | monitors without a connector at different positions get different keys |
| BarManager.CreateBarForMonitor | crates/vibepanel/src/services/bar_manager.rs:122-159 | before init nothing is built and no key returned; afterwards the monitor's key is returned, an existing bar is left alone, and a missing one is built from the given configuration |
| BarManager.CreateTwiceIsOnce | crates/vibepanel/src/services/bar_manager.rs:133-136 | creating twice for the same monitor builds one bar, from the first configuration |
| BarManager.RemoveBar | crates/vibepanel/src/services/bar_manager.rs:164-170 | the key's bar goes, every other bar stays, and an unknown key changes nothing |
| BarManager.SeenKeys | crates/vibepanel/src/services/bar_manager.rs:186-200 | the keys seen are exactly those of listed monitors that the allow-list lets through |
| BarManager.CreateLoop | crates/vibepanel/src/services/bar_manager.rs:186-205 | the creation loop never drops or changes an existing bar |
| BarManager.CreateLoopSpec | crates/vibepanel/src/services/bar_manager.rs:186-205 | with the application ready, afterwards every allowed monitor has a bar, and every new bar is an allowed monitor's, built from the given configuration |
| BarManager.CreateLoopNeedsApp | crates/vibepanel/src/services/bar_manager.rs:127-205 | without the application no bar can be built |
| BarManager.CreateLoopFacts | crates/vibepanel/src/services/bar_manager.rs:186-205 | after the whole loop with the application ready every allowed monitor has a bar and each new bar is an allowed one built from the configuration; without it nothing changes |
| BarManager.SyncMonitors | crates/vibepanel/src/services/bar_manager.rs:180-221 | after a sync the bars are exactly the seen monitors' (the old ones among them without an application); surviving bars are untouched and new ones use the given configuration |
| BarManager.EmptyAllowListMeansAll | crates/vibepanel/src/services/bar_manager.rs:193-195 | with an empty allow-list every monitor gets a bar |
| BarManager.SyncIdempotent | crates/vibepanel/src/services/bar_manager.rs:180-221 | a second sync with the same monitors and configuration changes nothing |
| BarManager.ReconfigureAll | crates/vibepanel/src/services/bar_manager.rs:228-245 | reconfiguring removes every bar and syncs again, so every bar is built from the new configuration |
| BarManager.RemoveAll | crates/vibepanel/src/services/bar_manager.rs:232-235 | removing the bars of every key leaves none |
| BarManager.SyncKeepsOldBars | crates/vibepanel/src/services/bar_manager.rs:180-245 | a plain sync keeps a bar built from an older configuration; only reconfiguring rebuilds it |
| BarManager.StartWait | crates/vibepanel/src/services/bar_manager.rs:315-340 | the pending set is exactly the listed monitors that are not ready yet, and with none pending the sync runs at once |
| BarManager.CheckReady | crates/vibepanel/src/services/bar_manager.rs:365-390 | a now-ready monitor leaves the pending set, and the removal that empties it runs the sync once; a monitor that is not ready changes nothing |
| BarManager.CheckReadyIdempotent | crates/vibepanel/src/services/bar_manager.rs:372-374 | a repeated notification for the same monitor changes nothing more |
| BarManager.Notify | crates/vibepanel/src/services/bar_manager.rs:353-396 | any run of notifications keeps the sync run once exactly when nothing is pending, and never more |
| BarManager.SyncRunsOnce | crates/vibepanel/src/services/bar_manager.rs:315-418 | whatever the notifications, the sync runs at most once, and it has run exactly when every pending monitor reported ready |
| BarManager.AllReadyEmpties | crates/vibepanel/src/services/bar_manager.rs:365-390 | every pending monitor reporting ready empties the pending set |
| BatteryPopover.FormatTime | crates/vibepanel/src/widgets/battery_popover.rs:14-25 | "Unknown" exactly for a non-positive number of seconds, and otherwise a text ending in minutes |
| BatteryPopover.FormatTimeReads | crates/vibepanel/src/widgets/battery_popover.rs:14-25 | a duration of h hours, m minutes and some seconds reads "<h>h <m>m", or "<m>m" under an hour |
| BatteryPopover.StateText | crates/vibepanel/src/widgets/battery_popover.rs:43-53 | UPower's state codes 1 to 6 name their states and anything else, or no state, is "Unknown" |
| BatteryPopover.TooltipStateAgrees | crates/vibepanel/src/widgets/battery_popover.rs:43-53 | the bar tooltip's state word agrees with the popover for charging, discharging and full |
| BatteryPopover.TimeLabel | crates/vibepanel/src/widgets/battery_popover.rs:169-190 | "Time until full" while charging, "Time remaining" while discharging, each with the formatted time or "Unknown", and "Time: Unknown" otherwise |
| BatteryPopover.TimeLabelKnown | crates/vibepanel/src/widgets/battery_popover.rs:14-190 | the time line gives a time exactly when the state has one and a positive number of seconds was reported for it |
| BatteryPopover.FormatRounded | crates/vibepanel/src/widgets/battery_popover.rs:160 | printing with no decimals gives the integer nearest the value, an exact half going to the even neighbour |
| BatteryPopover.PercentLabel | crates/vibepanel/src/widgets/battery_popover.rs:156-163 | "Unknown" without a percentage; otherwise digits and '%', reading an integer of at most 100 within half a unit of the clamped percentage, and even at an exact half |
| BatteryPopover.PercentMatchesBar | crates/vibepanel/src/widgets/battery_popover.rs:160 | except at an exact half, the popover's percentage reads as the bar's |
| BatteryPopover.PercentAtHalves | crates/vibepanel/src/widgets/battery_popover.rs:160 | at an exact half the popover and the bar agree exactly when the integer below it is odd |
| BatteryPopover.HalfPercentDisagrees | crates/vibepanel/src/widgets/battery_popover.rs:160 | at 42.5 the bar shows "43%" and the popover "42%" |
| BatteryPopover.CapitalizeAll | crates/vibepanel/src/widgets/battery_popover.rs:203-214 | every word is capitalised and the words keep their order |
| BatteryPopover.TitleCaseWord | crates/vibepanel/src/widgets/battery_popover.rs:203-214 | a single word is capitalised |
| BatteryPopover.TitleCaseTwoWords | crates/vibepanel/src/widgets/battery_popover.rs:203-214 | space-separated words are each capitalised and keep their order |
| BatteryPopover.TitleCaseIgnoresLeadingSpace | crates/vibepanel/src/widgets/battery_popover.rs:203-214 | leading whitespace never shows in the title |
| BatteryPopover.DashedProfileLabel | crates/vibepanel/src/widgets/battery_popover.rs:109 | a profile named "a-b" reads as the two words, capitalised, with a space between |
| BatteryPopover.BuildProfileSection | crates/vibepanel/src/widgets/battery_popover.rs:84-135 | a placeholder exactly when there are no profiles, otherwise one button per profile in order, labelled by its title-cased name and accented exactly when it is current |
| BatteryPopover.RefreshProfileButtons | crates/vibepanel/src/widgets/battery_popover.rs:138-149 | refreshing keeps every label and profile and accents exactly the buttons of the new current profile |
| BatteryPopover.RefreshMatchesRebuild | crates/vibepanel/src/widgets/battery_popover.rs:84-149 | refreshing the buttons for a new profile gives what a rebuild for it would |
| BatteryPopover.OneAccent | crates/vibepanel/src/widgets/battery_popover.rs:84-135 | with distinct profiles at most one button is accented, and none when the current profile is not offered |
| BatteryWidget.LevelOf | crates/vibepanel/src/widgets/battery.rs:337-352 | the charge level by thresholds: full from 95, high from 80, medium-high from 60, medium from 40, medium-low from 25, low from 10, critical below, each an if-and-only-if |
| BatteryWidget.LevelMonotone | crates/vibepanel/src/widgets/battery.rs:337-399 | more charge never shows a lower level |
| BatteryWidget.LevelWordInjective | crates/vibepanel/src/widgets/battery.rs:337-352 | different levels have different icon words |
| BatteryWidget.BatteryIconName | crates/vibepanel/src/widgets/battery.rs:337-359 | the icon is "battery-", the level word, and "-charging" exactly while charging |
| BatteryWidget.ChargingSuffix | crates/vibepanel/src/widgets/battery.rs:353-408 | the charging icon is the plain icon plus "-charging", and an icon ends so exactly while charging |
| BatteryWidget.ReadablePct | crates/vibepanel/src/widgets/battery.rs:325-327 | the percentage text is the number's decimal digits followed by '%' |
| BatteryWidget.ReadablePctInjective | crates/vibepanel/src/widgets/battery.rs:325-387 | different percentages read differently |
| BatteryWidget.RoundedPctValue | crates/vibepanel/src/widgets/battery.rs:313-322 | the rounded percentage is at most 100 and is the integer nearest the clamped percentage, an exact half going up |
| BatteryWidget.RoundedPctValueUnique | crates/vibepanel/src/widgets/battery.rs:313-322 | any integer nearest the clamped percentage, with halves going up, is the rounded percentage |
| BatteryWidget.Tooltip | crates/vibepanel/src/widgets/battery.rs:285-308 | the tooltip is "Battery: unknown" without a percentage, else the percentage with, when the state is known, a second "State:" line |
| BatteryWidget.Render | crates/vibepanel/src/widgets/battery.rs:206-311 | without the service: the unavailable class, a missing-battery icon, "?" and the unavailable tooltip; otherwise the charging class while plugged in, the low class at 20 percent or less when not, the level icon and the percentage; icon and label shown exactly when configured |
| BatteryWidget.UnknownLooksUnavailable | crates/vibepanel/src/widgets/battery.rs:220-279 | an unknown percentage looks like a missing service in the bar, and only the tooltip tells them apart |
| BatteryWidget.ChargingColourMatchesIcon | crates/vibepanel/src/widgets/battery.rs:244-268 | the charging colour shows exactly when the icon is the charging variant |
| Bluetooth.MacLikeShape | crates/vibepanel/src/services/bluetooth.rs:36-43 | every 17-character ASCII name with ':' or '-' third counts as an address, whatever its other characters |
| Bluetooth.MacLikeLength | crates/vibepanel/src/services/bluetooth.rs:36-43 | since the length is counted in UTF-8 bytes, an address-like name has between 5 and 17 characters |
| Bluetooth.ApplyProp | crates/vibepanel/src/services/bluetooth.rs:524-560 | applying one property never changes the device's object path |
| Bluetooth.ParseDeviceProperties | crates/vibepanel/src/services/bluetooth.rs:518-564 | the parsed device keeps its path and always has a name: the announced one, else the address, else "Unknown"; every other field is the one the properties set |
| Bluetooth.ApplyPropsPath | crates/vibepanel/src/services/bluetooth.rs:524-560 | a run of properties never changes the object path |
| Bluetooth.NamelessDeviceShowsAddress | crates/vibepanel/src/services/bluetooth.rs:545-551 | a device that announces only an address and a connection is listed under its address, connected, with no icon |
| Bluetooth.ParseObjectEntry | crates/vibepanel/src/services/bluetooth.rs:491-516 | an object yields a device exactly when its path is under /org/bluez/hci, contains /dev_ and it has a Device1 interface; the device carries that path |
| Bluetooth.DeviceLeTotal | crates/vibepanel/src/services/bluetooth.rs:470-487 | the device order is total, as the sort requires |
| Bluetooth.RankRespected | crates/vibepanel/src/services/bluetooth.rs:470-487 | the order puts connected before disconnected, then paired, then trusted, then readable names before address-like ones |
| Bluetooth.SortDevices | crates/vibepanel/src/services/bluetooth.rs:470-487 | the sorted list is a permutation of the input in the device order |
| Bluetooth.ParseManagedObjects | crates/vibepanel/src/services/bluetooth.rs:422-489 | the device list is sorted and has at most one device per managed object |
| Bluetooth.RankNonDecreasing | crates/vibepanel/src/services/bluetooth.rs:470-487 | along a published list a connected device is never behind a disconnected one, nor a paired behind an unpaired one, and so on down the key |
| Bluetooth.UpdateWithoutConnection | crates/vibepanel/src/services/bluetooth.rs:338-345 | without a bus connection the snapshot becomes the empty one and is announced |
| Bluetooth.UpdateWithoutObjectManager | crates/vibepanel/src/services/bluetooth.rs:347-418 | before the object manager exists only the adapter facts change: present, powered and scanning as the adapter reports them (false when unreported); the device list stays |
| Bluetooth.DevicesFetched | crates/vibepanel/src/services/bluetooth.rs:375-405 | the published device list is the parsed reply (empty on an error), the connected count counts it, and the adapter facts are as reported |
| Bluetooth.ConnectedFirst | crates/vibepanel/src/services/bluetooth.rs:380-487 | the connected devices head the published list, exactly as many as the connected count |
| Bluetooth.RequestUpdate | crates/vibepanel/src/services/bluetooth.rs:313-331 | a change schedules an update exactly when none is pending, and one is pending afterwards |
| Bluetooth.DebounceFired | crates/vibepanel/src/services/bluetooth.rs:320-329 | when the timer fires the next change may schedule again |
| Bluetooth.BurstStartsOneTimer | crates/vibepanel/src/services/bluetooth.rs:313-331 | a burst of changes starts one timer, and after it fires the next change starts another |
| Bluetooth.SetUnavailable | crates/vibepanel/src/services/bluetooth.rs:298-311 | anything but the pristine empty state is reset to it and announced; the pristine state is left alone |
| Bluetooth.SetUnavailableIdempotent | crates/vibepanel/src/services/bluetooth.rs:298-311 | losing the service twice does nothing the second time |
| Bluetooth.FindDevice | crates/vibepanel/src/services/bluetooth.rs:644-656 | with a bus connection a device is found exactly when one has the path or address given, and the one found has it |
| Bluetooth.FindByPathOrAddress | crates/vibepanel/src/services/bluetooth.rs:644-656 | every listed device can be addressed by its path and by its address |
| BluetoothCard.BtIconName | crates/vibepanel/src/widgets/quick_settings/bluetooth_card.rs:31-40 | the disabled icon exactly when powered off, the active icon exactly when powered with a device connected, the plain icon otherwise |
| BluetoothCard.CardSubtitle | crates/vibepanel/src/widgets/quick_settings/bluetooth_card.rs:315-339 | "Unavailable" without an adapter, "Bluetooth" before the first load, the first connected device's name for one connection, "<n> connected" for more, else "Enabled" or "Disabled" |
| BluetoothCard.SingleConnectedNamesHead | crates/vibepanel/src/widgets/quick_settings/bluetooth_card.rs:322-329 | with one device connected, the subtitle names the head of the published list |
| BluetoothCard.Toggle | crates/vibepanel/src/widgets/quick_settings/bluetooth_card.rs:298-305 | the toggle is on exactly when an adapter is present and powered, and usable exactly when an adapter is present |
| BluetoothCard.ScanButton | crates/vibepanel/src/widgets/quick_settings/bluetooth_card.rs:342-346 | the scan button shows exactly when powered, is usable exactly with an adapter that is not scanning, and spins exactly while scanning |
| BluetoothCard.ScanButtonMatchesService | crates/vibepanel/src/widgets/quick_settings/bluetooth_card.rs:344 | the scan button is usable exactly when pressing it would start a discovery |
| BluetoothCard.Placeholder | crates/vibepanel/src/widgets/quick_settings/bluetooth_card.rs:128-152 | the list shows "Bluetooth unavailable", "Bluetooth is disabled", "Scanning for devices..." or "No Bluetooth devices" in that order of precedence, and rows exactly when there are devices |
| BluetoothCard.RowTitle | crates/vibepanel/src/widgets/quick_settings/bluetooth_card.rs:158-164 | a row title is never empty: the name, else the address, else "Unknown device" |
| BluetoothCard.ParsedRowTitle | crates/vibepanel/src/widgets/quick_settings/bluetooth_card.rs:158-164 | a device the service parsed is always shown under its own name |
| BluetoothCard.RowIcon | crates/vibepanel/src/widgets/quick_settings/bluetooth_card.rs:166-170 | the row uses the device's own icon, else the connected or plain Bluetooth icon |
| BluetoothCard.RowSubtitleOf | crates/vibepanel/src/widgets/quick_settings/bluetooth_card.rs:187-199 | a connected row shows an accent "Connected" with "Paired" exactly when paired; otherwise "Paired", else "Saved" when trusted, else no subtitle |
| BluetoothCard.RowActivate | crates/vibepanel/src/widgets/quick_settings/bluetooth_card.rs:206-215 | activating a row disconnects a connected device, connects a paired or trusted one, and does nothing for an unknown one |
| BluetoothCard.RowActions | crates/vibepanel/src/widgets/quick_settings/bluetooth_card.rs:224-293 | an unknown device offers only "Pair"; a known one a menu of Connect or Disconnect, then Forget |
| BluetoothCard.ActivateIsFirstMenuEntry | crates/vibepanel/src/widgets/quick_settings/bluetooth_card.rs:206-280 | activating a known device's row does what its first menu entry does |
| Calendar.FirstOfMonth | crates/vibepanel/src/widgets/calendar_popover.rs:134-164 | the first of a month exists exactly when the year is in chrono's range and the month is 1 to 12 |
| Calendar.PrevMonth | crates/vibepanel/src/widgets/calendar_popover.rs:126-133 | the month before: January goes to December of the year before, and the month count drops by exactly one |
| Calendar.NextMonth | crates/vibepanel/src/widgets/calendar_popover.rs:156-163 | the month after: December goes to January of the year after, and the month count rises by exactly one |
| Calendar.Prev | crates/vibepanel/src/widgets/calendar_popover.rs:124-139 | the previous button shows the first of the previous month, and changes nothing when chrono cannot represent it |
| Calendar.Next | crates/vibepanel/src/widgets/calendar_popover.rs:154-169 | the next button shows the first of the next month, and changes nothing when chrono cannot represent it |
| Calendar.NextUndoesPrev | crates/vibepanel/src/widgets/calendar_popover.rs:124-169 | going back a month and forward again lands on the first of the starting month |
| Calendar.PrevUndoesNext | crates/vibepanel/src/widgets/calendar_popover.rs:124-169 | going forward a month and back again lands on the first of the starting month |
| Calendar.Month0 | crates/vibepanel/src/widgets/calendar_popover.rs:89-91 | GTK is given the month counted from zero, one less than chrono's |
| Calendar.DaySelected | crates/vibepanel/src/widgets/calendar_popover.rs:182-191 | a day click moves to the first of GTK's month when that is a real month in range, and otherwise changes nothing |
| Calendar.GtkMonthRoundTrip | crates/vibepanel/src/widgets/calendar_popover.rs:89-191 | handing a month to GTK and reading it back gives the first of the same month |
| Calendar.ShowTodayFollowsNavigation | crates/vibepanel/src/widgets/calendar_popover.rs:93-100 | the today style is dropped by navigating to the next month and restored by navigating back |
| Calendar.YearText | crates/vibepanel/src/widgets/calendar_popover.rs:80 | a year from 0 to 9999 is written as exactly four digits with its value, a larger one with a plus sign, a negative one with a minus sign and at least four digits |
| Calendar.PadDigits | crates/vibepanel/src/widgets/calendar_popover.rs:80 | the zero-padded digits have the number's value and are as wide as asked or as the number needs |
| Calendar.Header | crates/vibepanel/src/widgets/calendar_popover.rs:76-82 | the header starts with the month's English name and a space; for a year from 0 to 9999 the rest is four digits whose value is the year |
| Calendar.YearTextInjective | crates/vibepanel/src/widgets/calendar_popover.rs:80 | different years are written differently: the first character tells the sign class apart and the digits give the magnitude |
| Calendar.HeaderInjective | crates/vibepanel/src/widgets/calendar_popover.rs:76-82 | two dates with the same header lie in the same month of the same year |
| Calendar.NextChangesHeader | crates/vibepanel/src/widgets/calendar_popover.rs:154-170 | a "next" click from a month inside chrono's range always shows a different header |
| Clock.FromOptions | crates/vibepanel/src/widgets/clock.rs:34-54 | a string `format` is used as given and anything else (missing or another type) falls back to "%a %d %H:%M"; `show_week_numbers` is taken only when it is a boolean and defaults to on |
| Clock.ConfigExamples | crates/vibepanel/src/widgets/clock.rs:175-204 | the default, custom-format and non-string-format tests: no options give the default config, a custom format is kept, an integer format is ignored |
| Clock.FirstTickDelay | crates/vibepanel/src/widgets/clock.rs:119-121 | the first refresh is delayed between 1 and 60 seconds and lands exactly on the next minute boundary |
| Clock.TicksOnMinuteBoundaries | crates/vibepanel/src/widgets/clock.rs:119-148 | after the aligned first tick every repeating 60-second tick also falls on a minute boundary, and consecutive ticks are a minute apart |
| Compositor.DefaultPerOutput | crates/vibepanel/src/services/compositor/types.rs:47-243 | a fresh output has no active or occupied workspace and no window counts |
| Compositor.DefaultSnapshot | crates/vibepanel/src/services/compositor/types.rs:63-218 | the default snapshot has no active, occupied or urgent workspace, no counts and no output |
| Compositor.EmptyWindow | crates/vibepanel/src/services/compositor/types.rs:99-236 | the default window, kept for an output, is empty and on no workspace |
| Compositor.NonEmptyWithEitherField | crates/vibepanel/src/services/compositor/types.rs:99-236 | a title or an application id alone makes a window non-empty |
| Compositor.MarkActive | crates/vibepanel/src/services/compositor/types.rs:47-255 | marking a workspace active adds it to those already active and leaves the rest of the output's state alone |
| Compositor.SeveralActive | crates/vibepanel/src/services/compositor/types.rs:258-271 | an output can show several workspaces at once: marking any list of workspaces active, in any order, leaves exactly the earlier active ones plus every listed one, and nothing else of the output changes |
| Config.DeepMerge | crates/vibepanel-core/src/config.rs:426-439 | the merged table has the keys of both tables; a base key the overlay lacks keeps its value; an overlay value wins unless both sides hold tables, which merge recursively |
| Config.OverlayLeafWins | crates/vibepanel-core/src/config.rs:426-439 | every scalar or array the overlay sets, at any depth, is what the merged table holds at that path |
| Config.BaseValueKept | crates/vibepanel-core/src/config.rs:426-439 | every base value whose path the overlay does not reach is kept in the merge |
| Config.DeepMergeIdempotent | crates/vibepanel-core/src/config.rs:426-439 | merging a table with itself gives the same table |
| Config.Message | crates/vibepanel-core/src/config.rs:217-297 | every validation message starts with the name of the offending key followed by ": " |
| Config.Collect | crates/vibepanel-core/src/config.rs:217-297 | checking a list of rules reports the message of every violated rule and nothing else |
| Config.EveryRuleListed | crates/vibepanel-core/src/config.rs:217-297 | every kind of check is in the list that validation runs |
| Config.CollectAllRules | crates/vibepanel-core/src/config.rs:217-297 | running all the checks reports exactly the violated ones |
| Config.Validate | crates/vibepanel-core/src/config.rs:217-304 | validation succeeds exactly when no rule (backend, theme mode, accent, OSD position, bar size, OSD timeout, both opacities, notch with centre widgets) is violated; otherwise one `ConfigValidation` error lists every violation's message and only those |
| Config.SeveralErrorsReportedTogether | crates/vibepanel-core/src/config.rs:1474-1487 | an invalid backend, an invalid theme mode and a zero bar size are reported together in one error |
| Config.HexAccentShape | crates/vibepanel-core/src/config.rs:238-253 | the accent check accepts one or more leading '#' before 3 or 6 hex digits, and rejects hex digits with no '#' |
| Config.BareHexRejected | crates/vibepanel-core/src/config.rs:238-253 | 3 or 6 hex digits without a '#' are not an accepted accent |
| Config.HashedHexIsAccent | crates/vibepanel-core/src/config.rs:242-245 | any number of leading '#' (at least one) before 3 or 6 hex digits forms a hex accent |
| Config.HexHasNoHash | crates/vibepanel-core/src/config.rs:238-245 | a string of hex digits is neither "gtk" nor "none" and does not start with '#' |
| Config.TrimHashes | crates/vibepanel-core/src/config.rs:243 | `trim_start_matches('#')` removes every leading '#' and nothing after them |
| Config.ParseInlineArg | crates/vibepanel-core/src/config.rs:602-610 | the base name is the text before the first ':' (the whole name when there is none); the argument is the text after it, and an empty argument counts as none |
| Config.InlineArgRoundTrip | crates/vibepanel-core/src/config.rs:602-610 | writing a colon-free base and a non-empty argument as "base:arg" parses back to the same pair |
| Config.InlineWidth | crates/vibepanel-core/src/config.rs:631-648 | a "spacer:N" name injects a width exactly when N parses as a positive `i64`, and the width is N |
| Config.ResolveWidget | crates/vibepanel-core/src/config.rs:618-651 | a widget resolves to nothing exactly when its base name is disabled; otherwise to its base name, configured colour and options, with a valid inline spacer width overriding any configured `width` |
| Config.SpacerInlineWidth | crates/vibepanel-core/src/config.rs:1847-1870 | "spacer:N" for a positive N gives the spacer entry `width = N`, which becomes a fixed spacer width when N fits a `u32` |
| Config.ResolveAll | crates/vibepanel-core/src/config.rs:658-662 | resolving a list of names keeps exactly the entries of the enabled names |
| Config.ResolveAllOrder | crates/vibepanel-core/src/config.rs:658-662 | resolution keeps name order: resolving a concatenation concatenates the results, and one name yields its entry or nothing |
| Config.ResolvePlacement | crates/vibepanel-core/src/config.rs:655-671 | a single widget resolves as its name does; a group keeps its enabled members and is dropped exactly when none is enabled |
| Config.ResolveSection | crates/vibepanel-core/src/config.rs:674-679 | a section keeps exactly the placements that survive resolution |
| Config.ResolveSectionOrder | crates/vibepanel-core/src/config.rs:674-679 | sections keep placement order, a group whose members are all disabled leaves no trace, and a surviving placement appears once |
| Config.WidgetNames | crates/vibepanel-core/src/config.rs:809-814 | a single placement names one widget, a group names its members in order |
| Config.WidgetCount | crates/vibepanel-core/src/config.rs:801-806 | the count is the number of names the placement holds |
| Config.SectionHasExpander | crates/vibepanel-core/src/config.rs:731-738 | as written: a section has an expander exactly when one of its names passes `is_flexible_spacer` |
| Config.FlexibleSpacerExpands | crates/vibepanel-core/src/config.rs:703-723 | every name that `is_flexible_spacer` accepts does build an expanding spacer |
| Config.IgnoredInlineWidthMisclassified | crates/vibepanel-core/src/config.rs:631-723 | as written, a spacer whose inline argument is not a positive integer is ignored and expands, yet `is_flexible_spacer` calls it fixed |
| Config.InvalidInlineWidthMisclassified | crates/vibepanel-core/src/config.rs:703-723 | the concrete case "spacer:abc" |
| Config.SectionHasFlexibleSpacer | crates/vibepanel-core/src/config.rs:731-738 | corrected expander test: a section has an expander exactly when one of its names resolves to a spacer that expands |
| Config.ExpanderTestsAgree | crates/vibepanel-core/src/config.rs:731-738 | whenever the original test finds an expander, the corrected test does too |
| Config.AllReferencedWidgets | crates/vibepanel-core/src/config.rs:751-761 | exactly the names, as written, that appear in any section |
| Config.UnreferencedConfigs | crates/vibepanel-core/src/config.rs:765-772 | configured widgets no section mentions by that exact name are reported, and no mentioned name is |
| Config.EffectiveNotchWidth | crates/vibepanel-core/src/config.rs:495-514 | the notch width is always positive: the configured width, or the default when it is 0 |
| Config.Load | crates/vibepanel-core/src/config.rs:87-94 | a missing file is `ConfigNotFound` with its path; otherwise the parse result or its error |
| Config.SearchPaths | crates/vibepanel-core/src/config.rs:195-212 | the XDG path when set, then ~/.config/vibepanel/config.toml when HOME is set, then "config.toml" in the working directory, in that order |
| Config.Search | crates/vibepanel-core/src/config.rs:141-172 | the search finds a config exactly when some candidate loads (and then the first loadable one); it reports none exist exactly when every candidate is absent; otherwise it keeps the first failure |
| Config.SearchFindsLoadable | crates/vibepanel-core/src/config.rs:141-172 | a search succeeds exactly when a candidate loads, and returns the first such candidate |
| Config.SearchNoneExist | crates/vibepanel-core/src/config.rs:141-172 | a search reports that no file exists exactly when every candidate is absent |
| Config.SearchKeepsFirstError | crates/vibepanel-core/src/config.rs:141-172 | a failed search reports the error of the first existing file that failed to load |
| Config.FindAndLoad | crates/vibepanel-core/src/config.rs:124-192 | an explicit path never falls back; otherwise the first loadable file wins, existing files that all fail give the first error and never the defaults, and the built-in defaults are used only when no file exists |
| Config.LoadWithDefaults | crates/vibepanel-core/src/config.rs:100-111 | the user table is merged over the embedded defaults before deserialising, and a read or parse error is passed through |
| ConfigManager.ReloadAndSend | crates/vibepanel/src/services/config_manager.rs:260-280 | the message is `Reloaded` with the new configuration exactly when it loads and validates; a load failure sends "Failed to reload config: …" and a validation failure sends "Config validation failed: …"; a reload never reports a style-sheet change |
| ConfigManager.ConfigThemeChanged | crates/vibepanel/src/services/config_manager.rs:378-395 | the theme changed exactly when the theme-relevant fields (mode, accent, colours, opacities, state colours, font, radii, bar size, font rendering) differ |
| ConfigManager.ThemeChangeExamples | crates/vibepanel/src/services/config_manager.rs:503-529 | an unchanged config is never a theme change; a new mode, accent or bar opacity always is; a spacing-only edit is not |
| ConfigManager.OptionItems | crates/vibepanel/src/services/config_manager.rs:489-492 | one formatted item per option |
| ConfigManager.FormatSection | crates/vibepanel/src/services/config_manager.rs:477-485 | one line per placement of a section, each the placement's formatted item |
| ConfigManager.ConfigEntries | crates/vibepanel/src/services/config_manager.rs:488-493 | one "config:" line per widget table, in the tables' iteration order |
| ConfigManager.WidgetNames | crates/vibepanel/src/services/config_manager.rs:461-496 | the summary lists the left, centre and right placements in that order, then one line per widget table, with nothing else |
| ConfigManager.JoinTwo | crates/vibepanel/src/services/config_manager.rs:472 | joining two strings puts the separator between them |
| ConfigManager.FormatItemShapes | crates/vibepanel/src/services/config_manager.rs:466-475 | a single widget is listed as "side:name" and a group of two as "side:group:[a, b]" |
| ConfigManager.WidgetNamesOfOnes | crates/vibepanel/src/services/config_manager.rs:477-485 | with one placement per side the summary opens with the left, centre and right items in that order |
| ConfigManager.WidgetNamesExamples | crates/vibepanel/src/services/config_manager.rs:532-548 | the unit test's shape: a left widget, a centre group of two and a right widget are listed as "left:l", "center:group:[a, b]", "right:r" |
| ConfigManager.ConfigStructureChanged | crates/vibepanel/src/services/config_manager.rs:398-458 | as written: the structure changed exactly when the bar geometry, the widget summary (including the iteration order of widget tables) or the compositor differs |
| ConfigManager.StructureChangeExamples | crates/vibepanel/src/services/config_manager.rs:398-446 | a config is never structurally different from itself; a new bar size or a different list of single left widgets forces a rebuild |
| ConfigManager.LeftLinesFromNames | crates/vibepanel/src/services/config_manager.rs:461-496 | two configs differing only on the left side with equal summaries have equal left lines |
| ConfigManager.Singles | crates/vibepanel/src/services/config_manager.rs:466-470 | a list of names as single placements, one per name |
| ConfigManager.SingleNames | crates/vibepanel/src/services/config_manager.rs:466-470 | the names of single placements, in order |
| ConfigManager.SinglesRoundTrip | crates/vibepanel/src/services/config_manager.rs:466-470 | turning single placements into names and back gives the placements |
| ConfigManager.SingleLinesInjective | crates/vibepanel/src/services/config_manager.rs:466-485 | two single-widget sections with the same summary lines name the same widgets |
| ConfigManager.SingleLine | crates/vibepanel/src/services/config_manager.rs:468-470 | a single placement's line is "side:" followed by its name |
| ConfigManager.PrefixCancel | crates/vibepanel/src/services/config_manager.rs:469 | equal lines with the same prefix have equal remainders |
| ConfigManager.ConfigEntriesDiffer | crates/vibepanel/src/services/config_manager.rs:488-493 | tables with different colon-free names produce different summary lines |
| ConfigManager.NameBeforeColon | crates/vibepanel/src/services/config_manager.rs:489-492 | a "config:name:…" line determines its colon-free name |
| ConfigManager.ReorderedTablesForceRebuild | crates/vibepanel/src/services/config_manager.rs:438-493 | as written: two widget tables listed in the other order give a different summary, so an unchanged file reads as a structural change (the tables come from a freshly seeded hash map) |
| ConfigManager.ToMapKeys | crates/vibepanel/src/services/config_manager.rs:488-493 | the map built from the tables has exactly the tables' names as keys |
| ConfigManager.TableItems | crates/vibepanel/src/services/config_manager.rs:488-493 | each table seen by name, disabled flag and options map, in order |
| ConfigManager.ToMapCons | crates/vibepanel/src/services/config_manager.rs:488-493 | adding a table in front updates the map at its name |
| ConfigManager.UpdatesCommute | crates/vibepanel/src/services/config_manager.rs:488-493 | map updates at different keys commute |
| ConfigManager.ToMapSwap | crates/vibepanel/src/services/config_manager.rs:488-493 | swapping two neighbouring tables with different names does not change the map |
| ConfigManager.StructureChanged | crates/vibepanel/src/services/config_manager.rs:398-458 | the corrected structure test: widget tables compared as a map; a new bar size or different placement lines still force a rebuild |
| ConfigManager.StructureChangedIgnoresOrder | crates/vibepanel/src/services/config_manager.rs:398-458 | the corrected test does not fire when only two neighbouring widget tables are exchanged |
| ConfigManager.TableItemsConcat | crates/vibepanel/src/services/config_manager.rs:488-493 | table items of a concatenation concatenate |
| ConfigManager.StructureTestsAgree | crates/vibepanel/src/services/config_manager.rs:398-458 | when the widget tables are listed identically, the corrected and the written tests agree |
| ConfigManager.ApplyConfig | crates/vibepanel/src/services/config_manager.rs:305-367 | icons are reconfigured exactly when the icon theme or weight changed; styles update exactly on a theme change and before the config is stored; the config is stored exactly once; bars are rebuilt exactly on a structural change with a display, and only after the store |
| ConfigManager.ApplyConfigStable | crates/vibepanel/src/services/config_manager.rs:305-367 | the same fan-out with the corrected structure test: styles update on a theme change, the config is stored once, bars are rebuilt exactly when the order-independent test fires |
| ConfigManager.ApplyWith | crates/vibepanel/src/services/config_manager.rs:305-367 | the fan-out for a given structural verdict: the icon, theme and rebuild effects each happen exactly under their condition, with the store once, theme updates before it and the rebuild after it |
| ConfigManager.StoreSplit | crates/vibepanel/src/services/config_manager.rs:351-353 | effects before and after a single store: the store happens once, rebuilds follow it and theme updates precede it |
| ConfigManager.BeforeStore | crates/vibepanel/src/services/config_manager.rs:310-349 | the icon and theme effects made before the store, each exactly under its condition |
| ConfigManager.AfterStore | crates/vibepanel/src/services/config_manager.rs:355-364 | after the store a structural change reloads the CSS, and rebuilds the bars when a display exists |
| ConfigManager.ReorderRebuilds | crates/vibepanel/src/services/config_manager.rs:356-364 | reloading a file that only lists two widget tables the other way round rebuilds the bars as written, and does not with the corrected test |
| ConfigManager.SwapTwoStable | crates/vibepanel/src/services/config_manager.rs:398-458 | exchanging two widget tables is not a structural change for the corrected test |
| ConfigManager.RebuildFollowsVerdict | crates/vibepanel/src/services/config_manager.rs:356-364 | each fan-out rebuilds the bars exactly when its structure test fires and a display exists |
| ConfigManager.WidgetsOnlyChangeNoTheme | crates/vibepanel/src/services/config_manager.rs:378-395 | editing only the widget layout is never a theme change |
| ConfigManager.ThemeOnlyChangeNoStructure | crates/vibepanel/src/services/config_manager.rs:398-458 | editing only the theme table is never a structural change and never rebuilds the bars |
| ConfigManager.HandleConfigMessage | crates/vibepanel/src/services/config_manager.rs:284-299 | a reloaded config replaces the stored one and fans out; an error keeps the last good config with no effects on it; a changed style sheet only reloads the user CSS |
| ConfigManager.ReloadKeepsLastGood | crates/vibepanel/src/services/config_manager.rs:260-299 | end to end, a file change replaces the stored config exactly when the file loads and validates, and otherwise leaves the manager unchanged |
| ConfigManager.ApplySameIsQuiet | crates/vibepanel/src/services/config_manager.rs:305-367 | re-applying the stored configuration does nothing but store it |
| Cpu.FromOptions | crates/vibepanel/src/widgets/cpu.rs:38-57 | `show_icon` and `show_percentage` are honoured only when they are booleans; otherwise both default to on |
| Cpu.ConfigExamples | crates/vibepanel/src/widgets/cpu.rs:203-226 | the defaults and custom tests, plus a string `show_percentage` falling back to the default |
| Cpu.Update | crates/vibepanel/src/widgets/cpu.rs:146-196 | with the service available the icon and label visibility follow the configuration and the label shows the usage text; unavailable, the tooltip reads "CPU: Service unavailable", an enabled icon is shown, an enabled label shows "?", and disabled parts are left exactly as they were |
| Cpu.PercentageOffKeepsLabelHidden | crates/vibepanel/src/widgets/cpu.rs:176-188 | with `show_percentage = false` a label that is hidden (or hidden by a first available sample) stays hidden over any sequence of service updates |
| Hyprland.DefaultWorkspaces | crates/vibepanel/src/services/compositor/hyprland.rs:49-73 | before the first query the list holds workspaces 1 to 10 in order, on no output |
| Hyprland.DefaultNamesAreIds | crates/vibepanel/src/services/compositor/hyprland.rs:49-73 | every default workspace's name reads back as its number |
| Hyprland.NewBackend | crates/vibepanel/src/services/compositor/hyprland.rs:49-73 | a new backend starts with the default snapshot, no focused window or monitor, and the default workspace list |
| Hyprland.ScanMonitors | crates/vibepanel/src/services/compositor/hyprland.rs:144-180 | the monitors recorded are exactly the usable ones, those naming themselves and their active workspace, and a focused monitor found is among them |
| Hyprland.FetchMonitors | crates/vibepanel/src/services/compositor/hyprland.rs:144-180 | a failed query changes nothing; otherwise only monitor state changes, and a newly focused monitor has a recorded workspace |
| Hyprland.ResetForRefresh | crates/vibepanel/src/services/compositor/hyprland.rs:258-277 | the refresh starts from cleared occupied set, counts and outputs, then one output state per known monitor holding its active workspace; active and urgent stay |
| Hyprland.ScanCounted | crates/vibepanel/src/services/compositor/hyprland.rs:278-317 | after the loop the counted ids are exactly those of the workspaces with an id, a count and a positive id; every occupied one has a count, and every positive count is occupied |
| Hyprland.OccupiedIffWindows | crates/vibepanel/src/services/compositor/hyprland.rs:278-317 | with unique ids a workspace is occupied exactly when its window count is positive |
| Hyprland.RefreshOccupied | crates/vibepanel/src/services/compositor/hyprland.rs:253-335 | the active set becomes the focused monitor's workspace, or stays when that is unknown; urgent stays; the change is reported exactly when occupied or active changed; a failed workspace query refreshes only the monitors |
| Hyprland.FetchInitialState | crates/vibepanel/src/services/compositor/hyprland.rs:183-250 | as written, the focused monitor's workspace is added to the active set, never replacing it |
| Hyprland.FetchInitialStateIntended | crates/vibepanel/src/services/compositor/hyprland.rs:183-250 | corrected, the focused monitor's workspace replaces the active set, as the refresh does |
| Hyprland.RefetchKeepsOldActive | crates/vibepanel/src/services/compositor/hyprland.rs:441-454 | as written, a refetch after switching from workspace a to b leaves both active |
| Hyprland.RefetchIntendedReplacesActive | crates/vibepanel/src/services/compositor/hyprland.rs:441-454 | corrected, the refetch leaves only b active |
| Hyprland.UpdateActiveWorkspace | crates/vibepanel/src/services/compositor/hyprland.rs:342-380 | afterwards the active set is just the workspace; a change is reported exactly when it was not already; occupied and urgent stay; the focused monitor records it as its active workspace |
| Hyprland.UpdateActiveIdempotent | crates/vibepanel/src/services/compositor/hyprland.rs:342-380 | switching to the workspace already active alone is no change |
| Hyprland.RefreshActiveWindow | crates/vibepanel/src/services/compositor/hyprland.rs:386-423 | a reply becomes the focused window and a change is reported exactly when it differs; no reply changes nothing |
| Hyprland.FindArrow | crates/vibepanel/src/services/compositor/hyprland.rs:427-429 | the split point is the first ">>" in the line, and there is none exactly when the line holds no ">>" |
| Hyprland.ArrowAfterName | crates/vibepanel/src/services/compositor/hyprland.rs:427-429 | an event name without '>' is split off exactly where it ends |
| Hyprland.FirstField | crates/vibepanel/src/services/compositor/hyprland.rs:455-462 | the first field is the prefix of the data before its first comma |
| Hyprland.Urgent | crates/vibepanel/src/services/compositor/hyprland.rs:470-500 | only the urgent set may change; urgency is reported only for a listed client with that address on a positive workspace, and never when no client has the address |
| Hyprland.FocusedMon | crates/vibepanel/src/services/compositor/hyprland.rs:501-525 | the monitor before the comma becomes the focused one; when its workspace is known it becomes the only active one, also on its output, and a change is reported exactly when the active set was not already that |
| Hyprland.HandleEvent | crates/vibepanel/src/services/compositor/hyprland.rs:426-534 | a line without ">>" or naming an event it does not handle changes nothing; only "activewindow" and "activewindowv2" report a window change, and never together with a workspace change |
| Hyprland.UrgentFirstMatchOnly | crates/vibepanel/src/services/compositor/hyprland.rs:470-500 | only the first client with the address counts: when it sits on no real workspace a later one with the same address is ignored |
| Hyprland.Workspacev2UsesId | crates/vibepanel/src/services/compositor/hyprland.rs:455-462 | "workspacev2>>ID,NAME" switches to ID, whatever the name |
| Hyprland.NamedWorkspaceRefetches | crates/vibepanel/src/services/compositor/hyprland.rs:441-454 | "workspace>>NAME" with a non-numeric payload refetches everything and always reports a workspace change |
| Icons.MaterialSymbolName | crates/vibepanel/src/services/icons.rs:108-269 | a logical name in the table maps to its Material Symbols ligature; any other name (a ligature used directly) passes through unchanged |
| Icons.GtkIconCandidates | crates/vibepanel/src/services/icons.rs:280-720 | a known logical name yields its freedesktop candidates in priority order; the list is empty exactly for unknown names |
| Icons.BatteryCandidatesLeadWithLevels | crates/vibepanel/src/services/icons.rs:1754-1794 | the discharging battery names lead with the matching Adwaita `battery-level-N-symbolic` icons |
| Icons.ChargingCandidatesLeadWithLevels | crates/vibepanel/src/services/icons.rs:1797-1828 | the charging battery names lead with the charging and charged level icons |
| Icons.MaterialBatteryGlyphs | crates/vibepanel/src/services/icons.rs:1701-1742 | the battery names map to the expected Material ligatures |
| Icons.FirstAvailable | crates/vibepanel/src/services/icons.rs:728-737 | the position of the first candidate the theme has; every earlier candidate is missing, and the length when none is present |
| Icons.ResolveGtkIcon | crates/vibepanel/src/services/icons.rs:728-737 | the first candidate the theme has, otherwise "image-missing"; the result is always present in the theme or "image-missing" |
| Icons.ResolveGtkIconSingle | crates/vibepanel/src/services/icons.rs:742-755 | the name itself when present, else its "-symbolic" form when it lacks that suffix and the theme has it, else "image-missing" |
| Icons.GtkIconName | crates/vibepanel/src/services/icons.rs:762-780 | without an icon theme the logical name is shown as is; with one, known names go through their candidate list and unknown names are tried directly |
| Icons.ResolvedNameExists | crates/vibepanel/src/services/icons.rs:762-780 | with a theme the name shown is always one the theme has, or "image-missing" |
| Icons.NormalizeAppId | crates/vibepanel/src/services/icons.rs:783-788 | the result is a suffix of the trimmed id, everything cut from its front is '@', ':' or ' ', and it neither starts with such a character nor ends in white space |
| Icons.IsMaterialTheme | crates/vibepanel/src/services/icons.rs:1658-1660 | the theme is Material exactly when its trimmed name is "material" in any ASCII case |
| Icons.LowerMatch | crates/vibepanel/src/services/icons.rs:1658-1660 | comparing without ASCII case against a lower-case word is comparing the lower-cased text |
| Icons.CurrentBackendKind | crates/vibepanel/src/services/icons.rs:1381-1389 | Material exactly when the theme is Material and its font is ready; otherwise GTK exactly when an icon theme exists; otherwise text |
| Icons.EnsureMaterialCss | crates/vibepanel/src/services/icons.rs:1466-1542 | the style sheet is loaded once until the flag is reset; a second call changes nothing; the font becomes ready only when a display exists |
| Icons.NewService | crates/vibepanel/src/services/icons.rs:1229-1278 | a new service keeps theme and weight, has an icon theme exactly when a display exists, and has the Material font ready exactly for a Material theme with a display |
| Icons.Reconfigure | crates/vibepanel/src/services/icons.rs:1319-1359 | unchanged theme and weight change nothing; otherwise both are stored, and the Material style sheet is (re)loaded when switching to Material or changing the weight under it; a non-Material theme leaves the Material state alone |
| Icons.ReconfigureIdempotent | crates/vibepanel/src/services/icons.rs:1960-1977 | reconfiguring twice with the same values is the same as once |
| Icons.BackendAfterReconfigure | crates/vibepanel/src/services/icons.rs:1934-1957 | switching to Material with a display selects the Material backend; switching away selects GTK when an icon theme exists and text otherwise |
| Icons.DisplayedIcon | crates/vibepanel/src/services/icons.rs:1060-1076 | Material shows the ligature, GTK the resolved theme icon name, text the logical name |
| LayoutMath.ClampWidth | crates/vibepanel/src/layout_math.rs:29-38 | no space gives width 0; otherwise the width stays within the space available, is the natural size when that fits, and is all the space when the natural size is larger |
| LayoutMath.ClampWidthClosedForm | crates/vibepanel/src/layout_math.rs:29-225 | the width is the natural size raised to the minimum, capped at the space available, and floored at zero |
| LayoutMath.SideWidth | crates/vibepanel/src/layout_math.rs:103-116 | an absent side gets nothing, an expanding side its whole budget, any other side its clamped natural size within the budget |
| LayoutMath.ComputeCenterPriorityAllocation | crates/vibepanel/src/layout_math.rs:82-130 | the centre gets its clamped width and sits on the interior's true centre (its margins differ by at most one pixel); the sides stay inside their budgets, expanding sides fill them, and with a non-negative gap no side overlaps the centre |
| LayoutMath.ComputeLinearAllocation | crates/vibepanel/src/layout_math.rs:156-194 | left is anchored at the start and right at the end; a lone section is clamped; when both fit they get their natural widths, otherwise the right side is served first and the left gets what remains, and together they never exceed the space left after the gap |
| LayoutMath.CenterPriorityConstrainedExample | crates/vibepanel/src/layout_math.rs:350-380 | the constrained test: a 200 px interior with an 8 px gap puts a 100 px centre at 50 and gives both 80 px sides 42 px |
| MediaService.PlayerIdFromBusName | crates/vibepanel/src/services/media.rs:60-66 | a name without the MPRIS prefix is its own id; otherwise the id is a dot-free prefix of what follows the prefix |
| MediaService.PlayerIdOfBusName | crates/vibepanel/src/services/media.rs:60-66 | the id of "org.mpris.MediaPlayer2.ID" followed by nothing or by a '.'-suffix is ID |
| MediaService.ParseStatus | crates/vibepanel/src/services/media.rs:89-95 | "Playing" and "Paused" are read as such, and every other text is Stopped |
| MediaService.StatusNameRoundTrip | crates/vibepanel/src/services/media.rs:85-95 | every status's name reads back as that status |
| MediaService.Pad2 | crates/vibepanel/src/services/media.rs:1186-1201 | a zero-padded field is all digits, at least two of them, exactly two below 100 |
| MediaService.Pad2Value | crates/vibepanel/src/services/media.rs:1186-1201 | a padded field reads back as the number |
| MediaService.DurationParts | crates/vibepanel/src/services/media.rs:1186-1201 | hours, minutes and seconds recombine to the whole seconds of the input, with minutes and seconds below 60 |
| MediaService.FormatDuration | crates/vibepanel/src/services/media.rs:1186-1201 | a negative length prints "0:00" |
| MediaService.FormatDurationShort | crates/vibepanel/src/services/media.rs:1186-1201 | under an hour the text is M:SS, whose fields read back as the minutes and seconds of the input |
| MediaService.NewPlayer | crates/vibepanel/src/services/media.rs:480-508 | a new player carries its bus name, the id derived from it, that id capitalised as its name, and starts stopped, without metadata, at position 0 |
| MediaService.UpdateFromProxy | crates/vibepanel/src/services/media.rs:624-713 | status and metadata come from the cached properties (Stopped and no metadata when absent), CanControl defaults to true and the other flags to false; a track change is reported exactly when the track differs, resetting the position and moving the generation on |
| MediaService.UpdateTwiceNoChange | crates/vibepanel/src/services/media.rs:624-713 | reading the same properties a second time finds no track change |
| MediaService.SelectAuto | crates/vibepanel/src/services/media.rs:743-838 | the automatic choice is a connected player, none only without players: the last playing player while it plays, else any playing player, else the last or current player paused with a title, else the first paused player with a title, else the first paused, else the first |
| MediaService.PausedWithTitlePreferred | crates/vibepanel/src/services/media.rs:743-838 | with nothing playing, a paused player with a title is chosen over every player without one |
| MediaService.UpdateActive | crates/vibepanel/src/services/media.rs:716-740 | a manual choice stands while its player is connected and is dropped when it is not; without one the automatic choice is made |
| MediaService.ActiveIsConnected | crates/vibepanel/src/services/media.rs:716-740 | the active player is always connected, and there is one exactly when some player is connected |
| MediaService.SetActivePlayer | crates/vibepanel/src/services/media.rs:299-309 | an unknown bus name is refused without notice; a known one becomes the manual and active choice, and listeners are told |
| MediaService.SetAutoSelection | crates/vibepanel/src/services/media.rs:312-317 | the manual choice is dropped and the automatic one made, and listeners are told |
| MediaService.RemoveBus | crates/vibepanel/src/services/media.rs:606-620 | the players left are exactly those on other buses, and bus names stay unique |
| MediaService.RemovePlayer | crates/vibepanel/src/services/media.rs:606-620 | an unknown bus changes nothing; otherwise the player is gone, a manual choice of it is dropped, and listeners are told |
| MediaService.InsertPlayer | crates/vibepanel/src/services/media.rs:595 | the stored player replaces the one on its bus, and every player on another bus stays |
| MediaService.AddPlayer | crates/vibepanel/src/services/media.rs:448-603 | a bus already known changes nothing; a new one is stored as a player and the choice reconsidered |
| MediaService.OnPropertiesChanged | crates/vibepanel/src/services/media.rs:520-572 | a signal for a player that is gone does nothing; a player that starts playing becomes the last playing one and, without a manual choice, the active one; a manual choice is never overridden |
| MediaService.ManualChoiceHonoured | crates/vibepanel/src/services/media.rs:541-560 | after a manual choice no property change of any player moves the active player away from it |
| MediaService.BuildSnapshot | crates/vibepanel/src/services/media.rs:867-895 | without a connected active player the snapshot is empty but says whether any player is connected; otherwise it carries that player's name and status |
| MediaService.SnapshotAvailable | crates/vibepanel/src/services/media.rs:867-895 | once the choice is made the snapshot is available exactly when some player is connected |
| MediaWidget.AsFloat | crates/vibepanel/src/widgets/media.rs:96-102 | a float option is read as given, an integer as the same number, anything else as absent |
| MediaWidget.FromOptions | crates/vibepanel/src/widgets/media.rs:68-109 | the template and empty text are the options' or the defaults, max_chars defaults to 20 and is clamped at 0, and the pop-out opacity lies in 0 to 1 |
| MediaWidget.DefaultConfig | crates/vibepanel/src/widgets/media.rs:111-121 | without options the configuration is the default template, no empty text, 20 characters and full opacity |
| MediaWidget.ParseWidgetToken | crates/vibepanel/src/widgets/media.rs:135-143 | a widget token is recognised exactly when the text is one of the four widget names, and reads back as that name |
| MediaWidget.ParseTextToken | crates/vibepanel/src/widgets/media.rs:213-218 | a text token is recognised exactly when the text is one of the three text names, and reads back as that name |
| MediaWidget.Classify | crates/vibepanel/src/widgets/media.rs:208-229 | an unrecognised token stays in the text as a literal, braces included |
| MediaWidget.ParsePlain | crates/vibepanel/src/widgets/media.rs:173-240 | text without a '{' joins the pending literal |
| MediaWidget.ParseToken | crates/vibepanel/src/widgets/media.rs:173-240 | a closed "{token}" ends the pending literal and becomes one element |
| MediaWidget.ParseRoundTrip | crates/vibepanel/src/widgets/media.rs:173-240 | parsing loses nothing: the elements spell the template out again, an unclosed '{' and what follows it included |
| MediaWidget.NoEmptyLiterals | crates/vibepanel/src/widgets/media.rs:173-240 | the parser never emits an empty literal |
| MediaWidget.ClassifyNames | crates/vibepanel/src/widgets/media.rs:208-229 | every token name between braces parses to its own element |
| MediaWidget.SeparatedTokens | crates/vibepanel/src/widgets/media.rs:173-240 | "{a}sep{b}", as in the default "{artist} - {title}", parses to the two tokens around the separator literal |
| MediaWidget.ComputeTextRuns | crates/vibepanel/src/widgets/media.rs:309-333 | the runs returned are exactly the maximal stretches of text elements, in order, between widget elements |
| MediaWidget.Resolve | crates/vibepanel/src/widgets/media.rs:242-290 | a widget or an empty value contributes nothing, and every other contribution is non-empty unless it is a literal |
| MediaWidget.RenderTextAsWritten | crates/vibepanel/src/widgets/media.rs:242-290 | as written, the rendered text is no longer than the pieces joined |
| MediaWidget.RenderText | crates/vibepanel/src/widgets/media.rs:242-290 | corrected, the rendered text is no longer than the pieces joined |
| MediaWidget.RenderRule | crates/vibepanel/src/widgets/media.rs:242-290 | under either rule the text is the trimmed pieces; a widget adds nothing, a text token its value, and a literal its text exactly when the nearest element on each side it does not look through is present |
| MediaWidget.WidgetsAddNoText | crates/vibepanel/src/widgets/media.rs:242-290 | a template of widgets alone renders no text |
| MediaWidget.SeparatorBetweenValues | crates/vibepanel/src/widgets/media.rs:242-290 | corrected, a separator between two present values shows, whatever the values look like |
| MediaWidget.TemplateShowsSeparator | crates/vibepanel/src/widgets/media.rs:173-290 | from template to text, "{a}sep{b}" with both values present shows both values around the separator |
| MediaWidget.SeparatorDroppedWithMissingValue | crates/vibepanel/src/widgets/media.rs:242-290 | a missing value takes its separator with it |
| MediaWidget.PunctuationValueLosesSeparator | crates/vibepanel/src/widgets/media.rs:293-296 | as written, a present value made only of punctuation is looked through like a separator, so the separator after it disappears |
| MediaWidget.RulesAgreeOnWordValues | crates/vibepanel/src/widgets/media.rs:242-296 | the as-written and corrected rules give the same text whenever no value reads as punctuation |
| MediaWidget.DisplayFor | crates/vibepanel/src/widgets/media.rs:774-840 | the widget shows exactly when there is something to play; otherwise it is left alone while the pop-out is open, hidden without an empty text, else shows the empty text with the "No media playing" tooltip |
| MediaWidget.HideCases | crates/vibepanel/src/widgets/media.rs:774-782 | a playing or paused player is shown even without a title, a stopped one without a title is hidden |
| MediaWidget.TooltipLines | crates/vibepanel/src/widgets/media.rs:1001-1034 | the tooltip names the player first when known, holds title, artist and album when known, and ends with the status |
| MediaWidget.BuildTooltip | crates/vibepanel/src/widgets/media.rs:1001-1034 | without a player the tooltip is "No media playing"; otherwise it starts with the player line and ends with the status line |
| MediaWidget.JoinEnds | crates/vibepanel/src/widgets/media.rs:1001-1034 | a joined list starts with its first line and ends with its last |
| Memory.FormatFromStr | crates/vibepanel/src/widgets/memory.rs:39-48 | the format name is read case-insensitively: "absolute" and "both" select those formats, every other string is a percentage (an if-and-only-if for each variant) |
| Memory.FormatRoundTrip | crates/vibepanel/src/widgets/memory.rs:28-48 | every format reads back from its own name, also when the name is written in upper case |
| Memory.FromOptions | crates/vibepanel/src/widgets/memory.rs:60-77 | `show_icon` is taken only when boolean (default on); a string `format` is parsed, anything else leaves the percentage default |
| Memory.ConfigExamples | crates/vibepanel/src/widgets/memory.rs:229-272 | the defaults, custom and non-string tests: empty options give the default, `show_icon = false` with "absolute" gives exactly that config, an integer format is ignored |
| MicCard.MicIconName | crates/vibepanel/src/widgets/quick_settings/mic_card.rs:26-40 | the icon is "microphone-sensitivity-<level>-symbolic" on the same level scale as the output, and the muted icon whenever muted |
| MicCard.MicAndVolumeIconsAgree | crates/vibepanel/src/widgets/quick_settings/mic_card.rs:26-40 | the microphone and output icons show the same level for the same volume and mute state |
| MicCard.MicControls | crates/vibepanel/src/widgets/quick_settings/mic_card.rs:290-343 | controls are sensitive exactly when the backend and microphone control are available, the hint shows exactly when only the control is missing, a missing volume reads as 0 and a missing mute state as unmuted |
| MicCard.PopulateSources | crates/vibepanel/src/widgets/quick_settings/mic_card.rs:254-287 | no sources gives "No input devices", all unplugged gives "No input devices available", otherwise one row per selectable source; there is no availability placeholder |
| Network.Security | crates/vibepanel/src/services/network.rs:796-797 | an access point is "secured" exactly when any of its three flag words is non-zero, and "open" exactly when all are zero |
| Network.NetworkDetails | crates/vibepanel/src/services/network.rs:755-810 | a missing SSID becomes ""; the entry is active exactly when it is the active access point, and known exactly when a saved connection has its SSID or it is active |
| Network.Lookup | crates/vibepanel/src/services/network.rs:851-868 | the first merged entry with a key: present exactly when some entry has that key |
| Network.MergeLookup | crates/vibepanel/src/services/network.rs:856-864 | merging a network updates only the entry with its key, absorbing into an existing entry or adding a new one |
| Network.MergeKeys | crates/vibepanel/src/services/network.rs:856-864 | merging a network adds its key and no other |
| Network.MergeUnique | crates/vibepanel/src/services/network.rs:856-864 | merging keeps keys unique |
| Network.DedupeUnique | crates/vibepanel/src/services/network.rs:851-868 | deduplication leaves at most one entry per (SSID, security) key |
| Network.LookupFindsMember | crates/vibepanel/src/services/network.rs:851-868 | with unique keys an entry is what a lookup of its key finds |
| Network.SummarisesNew | crates/vibepanel/src/services/network.rs:856-864 | a network with a new key summarises itself |
| Network.SummarisesAbsorbed | crates/vibepanel/src/services/network.rs:858-861 | absorbing a duplicate keeps the summary: active or known if either is, the larger strength |
| Network.SummarisesOther | crates/vibepanel/src/services/network.rs:856-864 | a network with another key leaves an entry's summary intact |
| Network.HasKeySnoc | crates/vibepanel/src/services/network.rs:851-868 | a key is present after appending a network exactly when it was before or is the network's |
| Network.DedupeLookup | crates/vibepanel/src/services/network.rs:851-868 | for each key the merged entry exists exactly when a scanned network has the key, and summarises all of them |
| Network.DedupeSpec | crates/vibepanel/src/services/network.rs:851-868 | one entry per (SSID, security) key present in the scan, each active or known exactly when one of its networks is and as strong as the strongest |
| Network.DedupeKeepsDistinct | crates/vibepanel/src/services/network.rs:851-868 | a scan without duplicate keys keeps every network as it is |
| Network.NetworkLeTotal | crates/vibepanel/src/services/network.rs:870-895 | the sort's comparator is total |
| Network.SortNetworks | crates/vibepanel/src/services/network.rs:870-895 | the sort returns the same networks, active before known before the rest, stronger first within a group, SSID order among equals |
| Network.GroupsInOrder | crates/vibepanel/src/services/network.rs:870-895 | in a sorted list groups never go back |
| Network.StrongerFirst | crates/vibepanel/src/services/network.rs:870-895 | within a group a sorted list runs from strongest to weakest |
| Network.ApDetails | crates/vibepanel/src/services/network.rs:217-227 | the access point's details mark the service connected with that SSID and strength, notify listeners and request a list refresh |
| Network.SetDisconnected | crates/vibepanel/src/services/network.rs:661-672 | the connection is cleared, listeners are notified exactly when something changed, and otherwise the service is unchanged |
| Network.NetworksRefreshed | crates/vibepanel/src/services/network.rs:231-268 | the list replaces the old one and the service is ready; the scan stamp is recorded when given; a pending scan ends exactly when the refresh has no stamp or a fresh one; connecting and failed SSIDs are copied into the snapshot |
| Network.ConnectionAttemptFinished | crates/vibepanel/src/services/network.rs:272-298 | the attempt is over; a failure records the SSID and invalidates the saved-network cache, a success clears the failure; listeners are notified and the list refreshed |
| Network.UpdateNmFlags | crates/vibepanel/src/services/network.rs:573-601 | listeners are notified exactly when `WirelessEnabled` changed; turning Wi-Fi off clears the connection and leaves no network active; no change leaves the service alone |
| Network.ScanNetworks | crates/vibepanel/src/services/network.rs:927-960 | nothing happens while a scan runs or without a Wi-Fi device; otherwise the scan is marked running and listeners see it |
| Network.ClearFailedState | crates/vibepanel/src/services/network.rs:963-970 | the failed SSID is cleared and listeners notified, the connecting SSID unchanged |
| Network.ConnectToSsid | crates/vibepanel/src/services/network.rs:973-1025 | the SSID is trimmed and an empty one is ignored; otherwise it becomes the connecting SSID, the earlier failure is forgotten and listeners are notified |
| Network.ScanEndsOnFreshResults | crates/vibepanel/src/services/network.rs:236-252 | a started scan ends at the first refresh that brings newer results |
| Network.StaleResultsKeepScanning | crates/vibepanel/src/services/network.rs:241-252 | a refresh with an unchanged scan stamp leaves a running scan running |
| Network.FailureThenRetry | crates/vibepanel/src/services/network.rs:272-288 | a failed connection keeps the SSID for the password prompt, and a new attempt clears it again |
| Network.SetDisconnectedIdempotent | crates/vibepanel/src/services/network.rs:661-672 | disconnecting twice notifies at most once |
| Niri.Initial | crates/vibepanel/src/services/compositor/niri.rs:47-59 | the shared state starts with the default snapshot, no focused window, no workspaces and no windows |
| Niri.Cleared | crates/vibepanel/src/services/compositor/niri.rs:138-152 | processing a workspace list starts from an empty snapshot and empty id maps and keeps the window cache, focus and per-output windows |
| Niri.AddToOutput | crates/vibepanel/src/services/compositor/niri.rs:207-219 | recording a workspace on an output adds that output and leaves every other output's state alone |
| Niri.ScanSets | crates/vibepanel/src/services/compositor/niri.rs:153-220 | after the loop a workspace is occupied and counted (with 0) exactly when listed, active exactly when listed as focused, urgent exactly when listed as urgent |
| Niri.ScanOutputs | crates/vibepanel/src/services/compositor/niri.rs:153-220 | an output has a state exactly when a listed workspace is on it; its occupied set is the workspaces on it and its active set those reported active |
| Niri.ScanList | crates/vibepanel/src/services/compositor/niri.rs:153-220 | the workspace list holds the listed entries that carry an index, in order |
| Niri.SortWorkspaces | crates/vibepanel/src/services/compositor/niri.rs:222-228 | the sorted list is a permutation of the scanned one, ordered by the output-then-index comparator |
| Niri.OutputsFirst | crates/vibepanel/src/services/compositor/niri.rs:222-228 | after sorting no workspace without an output comes before one with an output |
| Niri.TallySpec | crates/vibepanel/src/services/compositor/niri.rs:258-273 | tallying adds one per window on a known workspace (on the output, when one is given) to each count and creates entries only where some window counts |
| Niri.Zeroed | crates/vibepanel/src/services/compositor/niri.rs:246-256 | every count is reset to 0 and no entry is added or dropped |
| Niri.UpdateWindowCounts | crates/vibepanel/src/services/compositor/niri.rs:240-274 | only the window counts change: the sets, the outputs present and everything outside the snapshot stay |
| Niri.CountsAreWindowCounts | crates/vibepanel/src/services/compositor/niri.rs:240-274 | every count equals the number of cached windows on a workspace shown under that index, and an index keeps or gains an entry only when it had one or a window is on it |
| Niri.OutputCountsAreWindowCounts | crates/vibepanel/src/services/compositor/niri.rs:252-273 | per output every count is the number of cached windows on that output's workspace with that index, and no entry is lost |
| Niri.CountedOnKnown | crates/vibepanel/src/services/compositor/niri.rs:240-274 | once ids are counted, a window on a known workspace always lands on a counted index |
| Niri.ProcessWorkspacesSpec | crates/vibepanel/src/services/compositor/niri.rs:138-237 | after a workspace list occupied, active and urgent are exactly the listed, focused and urgent workspaces; every occupied one has the count of its windows; the list is the listed entries, sorted |
| Niri.ProcessWorkspacesOutputs | crates/vibepanel/src/services/compositor/niri.rs:138-237 | after a workspace list an output has a state exactly when a listed workspace is on it, with the workspaces on it occupied and those reported active active |
| Niri.InfoOf | crates/vibepanel/src/services/compositor/niri.rs:376-391 | the published record carries the cached window's title and app id |
| Niri.RefreshFocused | crates/vibepanel/src/services/compositor/niri.rs:365-400 | the focused window is a cached window marked focused (the first in insertion order), none exactly when no window is, and nothing else changes |
| Niri.BestIndex | crates/vibepanel/src/services/compositor/niri.rs:334-346 | the window shown for a workspace is on it; it is a focused window there if one is, else some window there (the first in the cache's insertion order, where the source's hash order is arbitrary), and none exactly when no window is there |
| Niri.ActiveWorkspaceOf | crates/vibepanel/src/services/compositor/niri.rs:324-332 | a workspace found for an output is on that output and active there |
| Niri.OutputWindow | crates/vibepanel/src/services/compositor/niri.rs:315-362 | an output's record names the output and shows the best window on its active workspace, or is empty when there is none |
| Niri.PerOutputWindows | crates/vibepanel/src/services/compositor/niri.rs:315-362 | every output with a state gets a fresh record, records of other outputs stay, and nothing else changes |
| Niri.Upsert | crates/vibepanel/src/services/compositor/niri.rs:424-428 | the stored window replaces any cached window with the same id and every other window stays |
| Niri.UpsertUnique | crates/vibepanel/src/services/compositor/niri.rs:403-444 | storing a window keeps window ids unique |
| Niri.LoadWindowsUnique | crates/vibepanel/src/services/compositor/niri.rs:277-312 | a loaded window list has unique ids, later entries replacing earlier ones |
| Niri.Activated | crates/vibepanel/src/services/compositor/niri.rs:482-521 | an unknown workspace changes nothing; a focused activation of a workspace not yet active makes it the only active one; a window change is always reported and a workspace change exactly when the active sets changed |
| Niri.UrgencyChanged | crates/vibepanel/src/services/compositor/niri.rs:522-538 | only the urgent set changes: the workspace joins it or leaves it, the change is reported exactly when the set changed, and an unknown workspace changes nothing |
| Niri.UrgencyIdempotent | crates/vibepanel/src/services/compositor/niri.rs:522-538 | reporting the same urgency twice changes nothing the second time |
| Niri.FocusChanged | crates/vibepanel/src/services/compositor/niri.rs:571-580 | exactly the window with the id is marked focused, a window change is reported and a workspace change is not |
| Niri.FocusChangedSpec | crates/vibepanel/src/services/compositor/niri.rs:571-580 | after a focus change the focused window is the cached one with that id, and there is none when no cached window has it |
| Niri.Without | crates/vibepanel/src/services/compositor/niri.rs:562-570 | removing a window drops every entry with its id and keeps every other one |
| Niri.WithoutUnique | crates/vibepanel/src/services/compositor/niri.rs:562-570 | removing a window keeps window ids unique |
| Niri.Closed | crates/vibepanel/src/services/compositor/niri.rs:562-570 | a close without an id changes nothing; with one the window leaves the cache and both changes are reported |
| Niri.ClosedSpec | crates/vibepanel/src/services/compositor/niri.rs:562-570 | after a close no cached window has that id, every other window stays, and the focused window is one of those left |
| Niri.Opened | crates/vibepanel/src/services/compositor/niri.rs:544-561 | the window is cached; its known workspace joins the occupied set and the workspace change is reported exactly when that set grew; a window change is always reported |
| Niri.StoreWindow | crates/vibepanel/src/services/compositor/niri.rs:403-444 | an entry without an id changes nothing; otherwise it is cached and the id map and occupied set stay |
| Niri.ActiveWindowChanged | crates/vibepanel/src/services/compositor/niri.rs:581-619 | an unknown workspace changes nothing; otherwise only its output's record changes, naming that output, and only a window change is reported |
| Niri.HandleEvent | crates/vibepanel/src/services/compositor/niri.rs:470-621 | a workspace list reports a workspace change only, a window list or focus change a window change only, a close with an id both, urgency never a window change, and a missing payload or unhandled event nothing |
| Niri.ListWorkspaces | crates/vibepanel/src/services/compositor/niri.rs:817-831 | with no workspaces known the list is workspaces 1 to 10 on no output, otherwise the known list |
| Niri.DefaultNamesAreIds | crates/vibepanel/src/services/compositor/niri.rs:817-831 | every default workspace's name reads back as its number |
| NotificationCommon.ParseEntity | crates/vibepanel/src/widgets/notification_common.rs:146-171 | an entity found is a valid name between '&' and the first ';' at most 10 characters in, at the head of the text |
| NotificationCommon.EntityRecognised | crates/vibepanel/src/widgets/notification_common.rs:146-171 | conversely, text that starts with a valid entity (amp, lt, gt, quot, apos, decimal or hex reference) yields exactly it, whatever follows |
| NotificationCommon.EntityExtends | crates/vibepanel/src/widgets/notification_common.rs:146-171 | a recognised entity stays recognised whatever text follows it |
| NotificationCommon.EntitySafe | crates/vibepanel/src/widgets/notification_common.rs:70-81 | an entity the parser keeps is safe markup text on its own |
| NotificationCommon.NamedEntitySafe | crates/vibepanel/src/widgets/notification_common.rs:162-168 | every valid entity name between '&' and ';' is safe markup text |
| NotificationCommon.EscapesSafe | crates/vibepanel/src/widgets/notification_common.rs:79-131 | the escapes written for a stray '&', '<' or '>' are safe markup text |
| NotificationCommon.EscapeHead | crates/vibepanel/src/widgets/notification_common.rs:68-133 | a character that is not the start of a tag becomes safe text, consuming at least one character; a character other than '&', '<' and '>' is copied as it is |
| NotificationCommon.EscapeText | crates/vibepanel/src/widgets/notification_common.rs:222-228 | corrected, anchor attributes are escaped like body text: the result is safe, and text without markup characters is kept |
| NotificationCommon.AlphaPrefix | crates/vibepanel/src/widgets/notification_common.rs:192-196 | the tag name is the longest leading run of ASCII letters |
| NotificationCommon.ScanTag | crates/vibepanel/src/widgets/notification_common.rs:175-183 | a tag is scanned exactly when the text starts with '<' and holds a '>', and it spans up to and including the first '>' |
| NotificationCommon.ClassifyTag | crates/vibepanel/src/widgets/notification_common.rs:199-240 | exactly b, i, u, a, br and img are accepted; b, i and u open or close as written, lower-cased; an opening a keeps its attributes verbatim as written and safely escaped when corrected |
| NotificationCommon.ParseTag | crates/vibepanel/src/widgets/notification_common.rs:175-241 | a tag is accepted exactly when it scans and names an accepted tag; it spans the scanned length and has the effect its name and slash give |
| NotificationCommon.CloseFrom | crates/vibepanel/src/widgets/notification_common.rs:136-139 | the closing tags written at the end are one per open tag, innermost first |
| NotificationCommon.LastIndexOf | crates/vibepanel/src/widgets/notification_common.rs:100 | the position found is the last occurrence of the tag in the stack, none exactly when it is not there |
| NotificationCommon.CloseAgainst | crates/vibepanel/src/widgets/notification_common.rs:91-117 | a closing tag not open writes nothing and keeps the stack; one open at its last position closes everything above it and pops to below it |
| NotificationCommon.ByteLenNonAscii | crates/vibepanel/src/widgets/notification_common.rs:174-183 | a non-ASCII character makes the byte length exceed the length in characters |
| NotificationCommon.Skip | crates/vibepanel/src/widgets/notification_common.rs:123-126 | the loop moves past at least the tag's characters |
| NotificationCommon.Drop | crates/vibepanel/src/widgets/notification_common.rs:123-126 | skipping past the end of the text simply ends the loop |
| NotificationCommon.Step | crates/vibepanel/src/widgets/notification_common.rs:68-133 | every iteration consumes at least one character |
| NotificationCommon.ReplayCloseFrom | crates/vibepanel/src/widgets/notification_common.rs:136-139 | closing the open tags from a position on pops exactly those tags |
| NotificationCommon.TagStepBalanced | crates/vibepanel/src/widgets/notification_common.rs:84-126 | the pieces a tag writes take the stack to the new stack exactly |
| NotificationCommon.StepBalanced | crates/vibepanel/src/widgets/notification_common.rs:68-133 | the pieces every iteration writes take the stack to the new stack exactly |
| NotificationCommon.PiecesBalanced | crates/vibepanel/src/widgets/notification_common.rs:63-142 | in both variants every closing tag written closes the innermost open one, and everything open ends up closed |
| NotificationCommon.SanitizedBalanced | crates/vibepanel/src/widgets/notification_common.rs:63-142 | the sanitised body's tags are balanced, as written and corrected |
| NotificationCommon.CloseFromSafe | crates/vibepanel/src/widgets/notification_common.rs:136-139 | the closing tags written at the end are safe |
| NotificationCommon.TagStepSafe | crates/vibepanel/src/widgets/notification_common.rs:84-126 | corrected, a tag writes safe pieces and keeps only allowed tags on the stack |
| NotificationCommon.ParsedTagSafe | crates/vibepanel/src/widgets/notification_common.rs:199-240 | corrected, the parser only writes safe tags |
| NotificationCommon.StepSafe | crates/vibepanel/src/widgets/notification_common.rs:68-133 | corrected, every iteration writes safe pieces and keeps only allowed tags on the stack |
| NotificationCommon.IntendedPiecesSafe | crates/vibepanel/src/widgets/notification_common.rs:63-142 | corrected, every piece written is safe |
| NotificationCommon.PieceAmpSafe | crates/vibepanel/src/widgets/notification_common.rs:63-142 | a safe piece has no '&' that does not begin an entity |
| NotificationCommon.RenderAmpSafe | crates/vibepanel/src/widgets/notification_common.rs:63-142 | every '&' of safe pieces put together begins an entity |
| NotificationCommon.SanitizeBodyMarkupAmpSafe | crates/vibepanel/src/widgets/notification_common.rs:63-142 | corrected, every '&' of the sanitised body begins an entity the markup parser accepts |
| NotificationCommon.PlainTextKept | crates/vibepanel/src/widgets/notification_common.rs:132-139 | text without '&', '<' or '>' passes through, followed by the closing tags of whatever was open |
| NotificationCommon.PlainStep | crates/vibepanel/src/widgets/notification_common.rs:132 | a character that is not markup is copied by one iteration |
| NotificationCommon.PlainBodyUnchanged | crates/vibepanel/src/widgets/notification_common.rs:63-142 | a body without '&', '<' or '>' comes out unchanged, as written and corrected |
| NotificationCommon.StrayCloseDropped | crates/vibepanel/src/widgets/notification_common.rs:110-116 | a closing tag that is not open writes nothing and keeps the stack |
| NotificationCommon.AsWrittenSkipsPastTag | crates/vibepanel/src/widgets/notification_common.rs:123-126 | as written, after a tag holding a non-ASCII character the loop skips more characters than the tag has |
| NotificationCommon.IntendedResumesAfterTag | crates/vibepanel/src/widgets/notification_common.rs:123-126 | corrected, the loop resumes right after the tag's '>' |
| NotificationCommon.ScanTagAt | crates/vibepanel/src/widgets/notification_common.rs:175-183 | a tag closed by the first '>' is scanned from the text between the brackets, whatever follows |
| NotificationCommon.ScanOpeningTag | crates/vibepanel/src/widgets/notification_common.rs:185-197 | an opening tag "<name attrs>" scans to its lower-cased name and its attributes, whatever follows |
| NotificationCommon.ParseOpeningTag | crates/vibepanel/src/widgets/notification_common.rs:199-213 | an opening b, i or u with any attributes becomes the bare tag, in both variants |
| NotificationCommon.OpenTagThenCharAsWritten | crates/vibepanel/src/widgets/notification_common.rs:123-126 | as written, an opening tag spanning a non-ASCII character makes the loop lose the character after it |
| NotificationCommon.OpenTagThenTextIntended | crates/vibepanel/src/widgets/notification_common.rs:123-126 | corrected, plain text after an opening tag is kept |
| NotificationCommon.EntityBlockedByGt | crates/vibepanel/src/widgets/notification_common.rs:146-171 | an '&' that begins no entity still begins none once a '>' and any text follow it |
| NotificationCommon.RenderOpenStep | crates/vibepanel/src/widgets/notification_common.rs:84-126 | an opening tag at the head of the body is written first, and the loop goes on after it with the tag open |
| NotificationCommon.RenderStartsWithOpen | crates/vibepanel/src/widgets/notification_common.rs:84-126 | a body starting with an accepted opening tag is sanitised to a text starting with that tag's output |
| NotificationCommon.AnchorAttributesUnescaped | crates/vibepanel/src/widgets/notification_common.rs:222-228 | as written, an '&' in the attributes of an opening a that begins no entity reaches the output bare, whatever follows |
| NotificationCommon.AnchorAttributeAsWritten | crates/vibepanel/src/widgets/notification_common.rs:222-228 | as written, "<a attrs>" whose attributes hold such an '&' gives invalid markup whatever follows |
| NotificationService.Lookup | crates/vibepanel/src/services/notification.rs:280-283 | a notification is found exactly when one has the id, and it is that one |
| NotificationService.Upsert | crates/vibepanel/src/services/notification.rs:630 | the stored notification replaces any with its id: the ids gain its id, stay unique, and the count grows only for a new id |
| NotificationService.UpsertMembers | crates/vibepanel/src/services/notification.rs:630 | after storing, the notifications are the new one and every old one with another id |
| NotificationService.RemoveId | crates/vibepanel/src/services/notification.rs:672-675 | removing an id keeps exactly the notifications with other ids, and ids stay unique |
| NotificationService.DropMembers | crates/vibepanel/src/services/notification.rs:299-310 | dropping an id keeps exactly the notifications with other ids |
| NotificationService.MaxId | crates/vibepanel/src/services/notification.rs:186-192 | the largest restored id bounds every id, is 0 for an empty history and is one of the ids otherwise |
| NotificationService.InsertAll | crates/vibepanel/src/services/notification.rs:186-192 | restoring inserts every history entry by id, so the ids are the union and stay unique |
| NotificationService.RestoredIds | crates/vibepanel/src/services/notification.rs:186-192 | restoring into an empty store gives unique ids that are exactly the history's, each at most the largest |
| NotificationService.Restore | crates/vibepanel/src/services/notification.rs:180-220 | on restore the ids are unique and recorded as restored, mute comes from disk, the backend is not yet available, and the counter is at least the saved one and above every restored id |
| NotificationService.CounterAfter | crates/vibepanel/src/services/notification.rs:195-196 | the restored counter is at least the saved one and above the largest id, unless that id is the last u32 value |
| NotificationService.Urgency | crates/vibepanel/src/services/notification.rs:537-546 | without an urgency hint the urgency is normal, and an integer hint is clamped to at most critical |
| NotificationService.StringHint | crates/vibepanel/src/services/notification.rs:547-562 | a string hint is taken only when non-empty and present under its key |
| NotificationService.PairActions | crates/vibepanel/src/services/notification.rs:498-516 | the actions are the consecutive id and label pairs, a trailing unpaired entry dropped |
| NotificationService.PairActionsRoundTrip | crates/vibepanel/src/services/notification.rs:498-516 | flattening the pairs again gives the raw list without its unpaired last entry |
| NotificationService.AssignId | crates/vibepanel/src/services/notification.rs:585-595 | a non-zero replaces_id that exists is reused and the counter stays; otherwise the counter's value is used and it moves on, wrapping to 1 instead of 0 |
| NotificationService.OldestIndex | crates/vibepanel/src/services/notification.rs:692-698 | the index found holds the oldest notification, the first of the oldest |
| NotificationService.RemoveAt | crates/vibepanel/src/services/notification.rs:699-704 | removing one entry keeps all others |
| NotificationService.Evict | crates/vibepanel/src/services/notification.rs:683-705 | eviction removes exactly the requested number (or all), keeping the rest |
| NotificationService.EvictOldestFirst | crates/vibepanel/src/services/notification.rs:683-705 | nothing evicted is newer than anything kept |
| NotificationService.EnforceLimit | crates/vibepanel/src/services/notification.rs:683-705 | after enforcing the limit at most 100 remain, all from the store, and none is dropped below 100 |
| NotificationService.EnforceLimitKeepsNewest | crates/vibepanel/src/services/notification.rs:683-705 | every evicted notification is at most as new as every kept one |
| NotificationService.NewestNeverEvicted | crates/vibepanel/src/services/notification.rs:683-705 | a notification strictly newer than all others is never evicted |
| NotificationService.NewestInserted | crates/vibepanel/src/services/notification.rs:630-634 | a notification newer than all stored survives the limit right after it is stored |
| NotificationService.HandleNotify | crates/vibepanel/src/services/notification.rs:480-643 | a Notify stores the record under the assigned id, keeps ids unique and the store at 100 or fewer, saves once and notifies, and changes neither mute nor the restored ids |
| NotificationService.Record | crates/vibepanel/src/services/notification.rs:602-619 | the stored record has the id and time, "Unknown" for an empty app name, and the request's texts, icon and timeout |
| NotificationService.NotifyStores | crates/vibepanel/src/services/notification.rs:630-642 | the id returned finds exactly the new record afterwards |
| NotificationService.FoundById | crates/vibepanel/src/services/notification.rs:280-283 | with unique ids every stored notification is found by its id |
| NotificationService.CloseInternal | crates/vibepanel/src/services/notification.rs:672-680 | an unknown id changes nothing and emits nothing; otherwise exactly that id is removed, NotificationClosed is emitted, and it saves and notifies once |
| NotificationService.ClosedSignals | crates/vibepanel/src/services/notification.rs:305-309 | close-all emits one NotificationClosed with reason dismissed per notification, in order |
| NotificationService.CloseAll | crates/vibepanel/src/services/notification.rs:299-314 | close-all empties the store; an empty store emits and saves nothing, otherwise one signal per notification, then a single save and a single notification |
| NotificationService.CloseEachSavesPerNotification | crates/vibepanel/src/services/notification.rs:293-296 | closing one by one instead would save once per notification |
| NotificationService.CloseEach | crates/vibepanel/src/services/notification.rs:293-296 | closing every notification one by one empties the store |
| NotificationService.SetMuted | crates/vibepanel/src/services/notification.rs:260-268 | only the mute flag changes; saving and notifying happen exactly when the value changes |
| NotificationService.ToggleMuted | crates/vibepanel/src/services/notification.rs:270-273 | toggling flips mute and always saves and notifies |
| NotificationService.ToggleTwice | crates/vibepanel/src/services/notification.rs:270-273 | toggling twice restores the state |
| NotificationService.InvokeAction | crates/vibepanel/src/services/notification.rs:317-330 | an unknown id does nothing; otherwise ActionInvoked is emitted and the notification closed with reason closed |
| NotificationService.SetReady | crates/vibepanel/src/services/notification.rs:750-755 | readiness is set, and listeners are told only the first time |
| NotificationService.OnNameAcquired | crates/vibepanel/src/services/notification.rs:436-444 | acquiring the name makes the backend available and ready, notifying once more |
| NotificationService.OnNameLost | crates/vibepanel/src/services/notification.rs:446-458 | losing the name makes the backend unavailable but ready, notifying once more |
| NotificationService.InsertNewestFirst | crates/vibepanel/src/services/notification.rs:772-777 | inserting into a newest-first list keeps it newest first and holds the same notifications plus the new one |
| NotificationService.SortNewestFirst | crates/vibepanel/src/services/notification.rs:772-777 | the history is a newest-first permutation of the store |
| NotificationService.SaveState | crates/vibepanel/src/services/notification.rs:765-788 | the saved history is the store, newest first, with the counter and mute flag |
| NotificationService.RestoreSaved | crates/vibepanel/src/services/notification.rs:180-196 | restoring what was saved gives back the same notifications, counter and mute flag, with every id marked restored |
| NotificationService.RestoreDistinct | crates/vibepanel/src/services/notification.rs:186-192 | a history with unique ids is restored as it is |
| NotificationService.RestoreKeepsCounter | crates/vibepanel/src/services/notification.rs:195-196 | a counter above every saved id is restored as it is |
| NotificationService.AppendFresh | crates/vibepanel/src/services/notification.rs:630 | storing a notification with a new id appends it |
| NotificationToast.Margin | crates/vibepanel/src/widgets/notification_toast.rs:135-137 | every toast sits at least the top margin below the edge |
| NotificationToast.StackDoesNotOverlap | crates/vibepanel/src/widgets/notification_toast.rs:135-137 | the first toast sits at the top margin, and each later one at least a toast height and a gap below every earlier one |
| NotificationToast.TimeoutMs | crates/vibepanel/src/widgets/notification_toast.rs:87-93 | a toast never times out exactly when it is critical; otherwise it uses the notification's positive timeout, else 5000 ms |
| NotificationToast.EmptyManager | crates/vibepanel/src/widgets/notification_toast.rs:384-394 | a new manager shows no toasts and is consistent |
| NotificationToast.Without | crates/vibepanel/src/widgets/notification_toast.rs:441-443 | retaining the other ids drops exactly that id and keeps the order otherwise; an absent id changes nothing |
| NotificationToast.Reposition | crates/vibepanel/src/widgets/notification_toast.rs:449-457 | every toast in the order gets its position in it as its stack index, and no toast is added or dropped |
| NotificationToast.RemoveToast | crates/vibepanel/src/widgets/notification_toast.rs:431-447 | the id leaves both the toasts and the order, the others keep their relative order and are re-indexed, and the widget is told |
| NotificationToast.Show | crates/vibepanel/src/widgets/notification_toast.rs:396-429 | a toast already shown for the id is removed first; the new one is appended last with its position in the order as index |
| NotificationToast.ActiveIds | crates/vibepanel/src/widgets/notification_toast.rs:459-461 | the active ids are exactly the toasts shown |
| NotificationToast.RepositionValid | crates/vibepanel/src/widgets/notification_toast.rs:449-457 | re-indexing a consistent manager changes nothing |
| NotificationToast.ShowThenRemove | crates/vibepanel/src/widgets/notification_toast.rs:396-447 | showing a toast and then removing it leaves the manager as removing it alone would |
| NotificationToast.RemoveAbsentToast | crates/vibepanel/src/widgets/notification_toast.rs:431-447 | removing an id that has no toast changes nothing |
| NotificationToast.RemoveAppended | crates/vibepanel/src/widgets/notification_toast.rs:431-447 | removing the toast just appended restores the manager |
| NotificationToast.RemoveKeepsRelativeOrder | crates/vibepanel/src/widgets/notification_toast.rs:441-443 | two other toasts keep their relative order when one is removed |
| NotificationsPopover.PopulateList | crates/vibepanel/src/widgets/notifications_popover.rs:199-228 | without the backend the list shows the other-daemon message, with no notifications the empty message, otherwise every notification once, newest first |
| NotificationsPopover.FirstRowNewest | crates/vibepanel/src/widgets/notifications_popover.rs:217-222 | the first row is at least as new as every notification |
| NotificationsPopover.ChildCount | crates/vibepanel/src/widgets/notifications_popover.rs:63-65 | the list has at least one child unless it is an empty list of rows |
| NotificationsPopover.ContentHeight | crates/vibepanel/src/widgets/notifications_popover.rs:63-71 | the scroll height is the natural height plus 8 + 8 pixels and 20 per child, capped at three rows of 100 pixels |
| NotificationsPopover.ContentHeightGrows | crates/vibepanel/src/widgets/notifications_popover.rs:63-71 | more children never make the scroll area smaller, and below the cap each child adds 20 pixels |
| NotificationsPopover.UrgencyClass | crates/vibepanel/src/widgets/notifications_popover.rs:265-270 | critical and low notifications get their class, normal ones none |
| NotificationsPopover.BodyLabel | crates/vibepanel/src/widgets/notifications_popover.rs:322-350 | a body label exists exactly when the body is non-empty; it shows the cleaned body and offers expansion exactly when that is longer than 80 characters |
| NotificationsPopover.PlainBodyExpandsWhenLong | crates/vibepanel/src/widgets/notifications_popover.rs:322-350 | a body without markup characters, newlines or edge blanks is shown as it is, expandable exactly when longer than 80 characters |
| NotificationsPopover.FirstOpen | crates/vibepanel/src/widgets/notifications_popover.rs:410-416 | the open action is the first whose label is "Open" |
| NotificationsPopover.PrimaryAction | crates/vibepanel/src/widgets/notifications_popover.rs:404-418 | the primary action is "default" when offered, else the first action labelled "Open", else none |
| NotificationsPopover.ChoosePrimaryAction | crates/vibepanel/src/widgets/notifications_popover.rs:404-418 | the loop over the actions computes the primary action |
| NotificationsPopover.NonDefaultActions | crates/vibepanel/src/widgets/notifications_popover.rs:397-402 | the buttons are exactly the actions other than "default" |
| NotificationsPopover.BuildActionsRow | crates/vibepanel/src/widgets/notifications_popover.rs:420-470 | the row is omitted exactly when there are no other actions, no primary and no expansion; a spacer appears exactly with expansion and a button, and the row is end-aligned exactly without expansion |
| NotificationsPopover.DefaultOnlyShowsPrimary | crates/vibepanel/src/widgets/notifications_popover.rs:404-420 | a notification whose only action is "default" still shows the row, with "default" as its primary |
| NotificationsWidget.Bind | crates/vibepanel/src/widgets/notifications.rs:351-355 | binding starts with the restored ids as known and the popover never opened |
| NotificationsWidget.MarkAsSeen | crates/vibepanel/src/widgets/notifications.rs:251-257 | opening the popover records the time as last seen and keeps the known ids |
| NotificationsWidget.Unread | crates/vibepanel/src/widgets/notifications.rs:158-185 | the unread notifications are exactly those not shown as toasts that arrived after last seen, or all of them when the popover was never opened |
| NotificationsWidget.UnreadCount | crates/vibepanel/src/widgets/notifications.rs:136-186 | the count is at most the number of notifications, and 0 exactly when the backend is unavailable or none counts as unread |
| NotificationsWidget.FirstRunAllUnread | crates/vibepanel/src/widgets/notifications.rs:168-175 | before the popover was first opened, with no toasts, every notification is unread |
| NotificationsWidget.LaterSeenFewerUnread | crates/vibepanel/src/widgets/notifications.rs:177-183 | a later last-seen time never counts more unread notifications |
| NotificationsWidget.SeenClearsBadge | crates/vibepanel/src/widgets/notifications.rs:177-183 | right after opening the popover nothing older is unread |
| NotificationsWidget.ShowNewToasts | crates/vibepanel/src/widgets/notifications.rs:188-231 | an unavailable backend changes nothing and shows nothing; otherwise the known ids become the current ones, and toasts are shown exactly for current ids not known before, unless muted or no toast can be shown |
| NotificationsWidget.ShowTwiceQuiet | crates/vibepanel/src/widgets/notifications.rs:188-231 | a second update with the same notifications shows no toasts |
| NotificationsWidget.MutedNotReplayed | crates/vibepanel/src/widgets/notifications.rs:193-198 | notifications that arrived while muted do not toast after unmuting |
| NotificationsWidget.RestoredNeverToast | crates/vibepanel/src/widgets/notifications.rs:351-355 | restored notifications never toast |
| NotificationsWidget.FreshNotificationToasts | crates/vibepanel/src/widgets/notifications.rs:188-231 | a new notification (not replacing one) just delivered by Notify toasts when the widget can show toasts and is not muted |
| NotificationsWidget.OnServiceUpdate | crates/vibepanel/src/widgets/notifications.rs:60-135 | after an update the badge dot shows exactly when something is unread, the critical class exactly when a critical notification exists, the unavailable state exactly without the backend, and the icon follows mute |
| NotificationsWidget.ToastedNotUnread | crates/vibepanel/src/widgets/notifications.rs:162-166 | a notification toasted by the update is not counted as unread |
| NotificationsWidget.TooltipCases | crates/vibepanel/src/widgets/notifications.rs:108-127 | the tooltip reads "No notifications" for none, "N new notifications (M total)" for several unread and "M notifications" for several read |
| Osd.NormalizePosition | crates/vibepanel/src/widgets/osd.rs:31-46 | the result is always one of bottom, left, right or top: a valid position is kept and anything else becomes bottom |
| Osd.NormalizeIdempotent | crates/vibepanel/src/widgets/osd.rs:34-46 | normalising twice changes nothing |
| Osd.Placement | crates/vibepanel/src/widgets/osd.rs:205-354 | each position anchors its own edge, with a 48-pixel margin on top and bottom and 24 on the sides, and the layout is vertical exactly on the sides |
| Osd.BrightnessIcon | crates/vibepanel/src/widgets/osd.rs:276-287 | the brightness icon is off at zero, low below 33, medium below 67 and high from 67 |
| Osd.VolumeIcon | crates/vibepanel/src/widgets/osd.rs:290-302 | the muted icon exactly when muted or at zero; otherwise low below 33, medium below 67 and high from 67 |
| Osd.ResetHideTimer | crates/vibepanel/src/widgets/osd.rs:356-377 | a zero timeout never arms a hide timer, any other arms one, and nothing else changes |
| Osd.ShowValue | crates/vibepanel/src/widgets/osd.rs:131-273 | the overlay becomes visible with the icon and the value clamped to 0..100 |
| Osd.ShowBrightness | crates/vibepanel/src/widgets/osd.rs:276-287 | the icon is chosen from the unclamped value and the slider shows it clamped |
| Osd.ShowVolume | crates/vibepanel/src/widgets/osd.rs:290-302 | volume above 100 keeps its icon but the slider stops at 100 |
| Osd.ShowVolumeUnavailable | crates/vibepanel/src/widgets/osd.rs:305-311 | the overlay becomes visible with the muted icon and "Play audio to enable" |
| Osd.OnBrightnessChanged | crates/vibepanel/src/widgets/osd.rs:392-425 | the display changes only for a ready, available service with a baseline and a clamped value that differs from the last; an unavailable or unready service forgets the baseline and the first ready value sets it |
| Osd.OnAudioChanged | crates/vibepanel/src/widgets/osd.rs:440-491 | after the settle period, for a ready service with a baseline, a change of volume or mute shows the volume, or the unavailable message when the sink takes no volume changes; otherwise only the baseline is recorded |
| Osd.Step | crates/vibepanel/src/widgets/osd.rs:356-542 | an IPC request always shows the overlay, the timeout is never changed, and an armed hide timer that fires hides the overlay |
| Osd.StepGood | crates/vibepanel/src/widgets/osd.rs:267-377 | every event keeps the slider within 0..100 and never arms a timer under a zero timeout |
| Osd.RunGood | crates/vibepanel/src/widgets/osd.rs:267-377 | any run of events keeps the same invariant |
| Osd.ZeroTimeoutNeverHides | crates/vibepanel/src/widgets/osd.rs:356-359 | with a zero timeout a shown overlay stays visible whatever follows |
| Osd.TimeoutHides | crates/vibepanel/src/widgets/osd.rs:356-377 | with a timeout, the timer's expiry hides whatever an IPC request showed |
| Osd.BrightnessBaselineSwallowed | crates/vibepanel/src/widgets/osd.rs:392-425 | after the service becomes ready its first value is swallowed as the baseline, and only a different value shows afterwards |
| LayerShellPopover.PopoverTopMargin | crates/vibepanel/src/widgets/layer_shell_popover.rs:46-57 | the gap below the bar is an `i32`: the configured popover offset, less the bar padding when the bar background is drawn, cast to `i32` by wrap-around, and exactly that value when both settings fit an `i32` |
| LayerShellPopover.BarExclusiveZone | crates/vibepanel/src/widgets/layer_shell_popover.rs:119-131 | the reserved height is the bar size plus the screen margin on both sides, plus the padding on both sides when the background is drawn, cast to `i32` by wrap-around; when that sum fits an `i32` it is exact and never less than the bar size |
| LayerShellPopover.HugeSettingsWrapNegative | crates/vibepanel/src/widgets/layer_shell_popover.rs:48-50 | a bar size or popover offset of 2^31, which the configuration accepts, turns into a negative height or margin |
| LayerShellPopover.PopoverRightMargin | crates/vibepanel/src/widgets/layer_shell_popover.rs:83-99 | the margin is an `i32`: the wrapping centring margin clamped into [min edge, saturating monitor width − (window width + min edge)] when that is non-empty, and the min edge otherwise |
| LayerShellPopover.RightMarginIsClampedCenter | crates/vibepanel/src/widgets/layer_shell_popover.rs:83-99 | without overflow the margin is the centring margin clamped into [min edge, monitor − window − min edge], or the min edge when the window is too wide |
| LayerShellPopover.PopoverStaysOnScreen | crates/vibepanel/src/widgets/layer_shell_popover.rs:83-99 | a popover placed with a valid margin lies entirely on screen, at least the min edge clear of both edges |
| LayerShellPopover.HugeWindowFallsBack | crates/vibepanel/src/widgets/layer_shell_popover.rs:93-98 | a window far wider than the monitor saturates the subtraction instead of overflowing, and the margin falls back to the min edge |
| LayerShellPopover.PopoverKeyboardMode | crates/vibepanel/src/widgets/layer_shell_popover.rs:107-113 | on-demand keyboard focus exactly on Hyprland, exclusive otherwise |
| BaseWidget.PopoverEdges | crates/vibepanel/src/widgets/base.rs:76-80 | the popover's left and right edges are centred on the widget's centre, using truncating halves, each the exact edge cast to `i32` by wrap-around, and the exact edge when it fits; then left ≤ right for a non-negative width |
| BaseWidget.SmartAlignment | crates/vibepanel/src/widgets/base.rs:70-92 | start-aligned exactly when the left edge would be within the edge margin; end-aligned exactly when it is not but the right edge would cross the wrapped `monitor_width - EDGE_MARGIN`; centred exactly when both fit |
| BaseWidget.CenteredExactlyWhenItFits | crates/vibepanel/src/widgets/base.rs:70-92 | without overflow the popover starts at the left exactly when its exact left edge is within 8 pixels, and is centred exactly when both exact edges stay 8 pixels clear of the screen |
| BaseWidget.WrappedCenterAlignsStart | crates/vibepanel/src/widgets/base.rs:76-83 | a widget at `i32::MAX` has its centre wrap negative, so its popover is start-aligned |
| BaseWidget.WidgetName | crates/vibepanel/src/widgets/base.rs:244-248 | the widget name is the first extra CSS class, or empty when there is none |
| PopoverTracker.DismissActive | crates/vibepanel/src/popover_tracker.rs:81-90 | the tracker forgets its active popover and dismisses it exactly when it is visible; ids are untouched |
| PopoverTracker.SetActive | crates/vibepanel/src/popover_tracker.rs:50-62 | the previous popover is dismissed as by `dismiss_active`, the new one becomes active under the next id, the counter advances, and the new id exceeds the old active id |
| PopoverTracker.ClearIfActive | crates/vibepanel/src/popover_tracker.rs:69-78 | the active popover is unregistered only when the id matches; otherwise nothing changes |
| PopoverTracker.IdsIncrease | crates/vibepanel/src/popover_tracker.rs:24-62 | a fresh tracker hands out id 1 first, and each later registration gets a strictly larger id |
| PopoverTracker.StaleIdCannotClear | crates/vibepanel/src/popover_tracker.rs:50-78 | a popover whose id is no longer active can never clear a newer popover |
| Sorting.SortBy | crates/vibepanel/src/services/network.rs:871 | `sort_by` returns a permutation of its input in which, for a total comparator, every element may stand before its successor |
| Sorting.SortByStable | crates/vibepanel/src/services/network.rs:871 | `sort_by` is stable: for a transitive comparator, the elements that tie with any given one come out in the order they went in, so ties in the network, device, connection and workspace sorts keep the order they arrived in |
| Spacer.ToU32 | crates/vibepanel/src/widgets/spacer.rs:56 | `u32::try_from(n).ok()`: some exactly when the integer fits a `u32`, and then the same value |
| Spacer.SpacerWidth | crates/vibepanel/src/widgets/spacer.rs:49-59 | the fixed width is present exactly when `width` is an integer in `u32` range, and is that integer |
| Spacer.SpacerSizing | crates/vibepanel/src/widgets/spacer.rs:74-92 | a spacer expands exactly when it has no width; a fixed width is requested through the `as i32` cast, so widths above `i32::MAX` wrap to negative values; a flexible one requests width 0 |
| Spacer.HugeWidthWrapsNegative | crates/vibepanel/src/widgets/spacer.rs:79-83 | a width of 2^31 is accepted as a `u32` but becomes a request of `i32::MIN` |
| Spacer.UnknownOptionsIgnored | crates/vibepanel/src/widgets/spacer.rs:50-56 | options other than `width` never change the configured width |
| Theme.RoundToEven | crates/vibepanel-core/src/theme.rs:67-74 | the result is even and is the value itself or the next integer |
| Theme.RoundToEvenUnique | crates/vibepanel-core/src/theme.rs:67-74 | the even number in [v, v + 1] is unique, so the rounding is fully determined by that property |
| Theme.SplitAtByte | crates/vibepanel-core/src/theme.rs:101-103 | Rust's `&s[..n]` over UTF-8: when defined, the two parts concatenate to the input and the first is exactly `n` bytes long |
| Theme.SplitAtByteAscii | crates/vibepanel-core/src/theme.rs:101-103 | on ASCII text a byte split is the ordinary split at that position |
| Theme.SliceBytesAscii | crates/vibepanel-core/src/theme.rs:101-103 | on ASCII text a byte slice never panics and is the ordinary slice |
| Theme.ParseU8Hex | crates/vibepanel-core/src/theme.rs:101-103 | `u8::from_str_radix(_, 16)`: any accepted value is below 256 |
| Theme.Double | crates/vibepanel-core/src/theme.rs:92-95 | the shorthand expansion doubles every character in place |
| Theme.HexBody | crates/vibepanel-core/src/theme.rs:89 | after `trim` and `trim_start_matches('#')` the text does not start with '#' |
| Theme.HexBodyOf | crates/vibepanel-core/src/theme.rs:89 | a trimmed string with one leading '#' has the text after it as its body |
| Theme.HexBodyOfBare | crates/vibepanel-core/src/theme.rs:89 | a trimmed string without '#' is its own body |
| Theme.TrimNoop | crates/vibepanel-core/src/theme.rs:89 | a string without surrounding whitespace is unchanged by `trim` |
| Theme.ParseHexColorPanics | crates/vibepanel-core/src/theme.rs:88-107 | as written, the colour "€" panics: it is doubled to "€€" (6 bytes) and the slice `[0..2]` ends inside a character |
| Theme.EuroBodyPanics | crates/vibepanel-core/src/theme.rs:91-103 | the body "€" reaches the panicking slice |
| Theme.EuroPairPanics | crates/vibepanel-core/src/theme.rs:101 | "€€" has six bytes and its first channel slice panics |
| Theme.ParseHexColor | crates/vibepanel-core/src/theme.rs:88-107 | the corrected parser: an accepted colour has three channels below 256, and its body is ASCII of length 3 or 6 |
| Theme.ParseBody | crates/vibepanel-core/src/theme.rs:91-106 | a body parses only when it is ASCII of length 3 or 6, into byte-sized channels |
| Theme.ParseChannels | crates/vibepanel-core/src/theme.rs:101-106 | the three two-digit channels of a six-character body, each below 256 |
| Theme.ParseChannelsHex | crates/vibepanel-core/src/theme.rs:101-106 | six hex digits parse to three channels of two digits each, red first |
| Theme.AsWrittenAgreesOnAscii | crates/vibepanel-core/src/theme.rs:88-107 | on an ASCII body the code as written never panics and returns exactly what the corrected parser returns |
| Theme.BodyAgreesOnAscii | crates/vibepanel-core/src/theme.rs:91-106 | the as-written and corrected body parsers agree on ASCII text |
| Theme.ChannelsAgreeOnAscii | crates/vibepanel-core/src/theme.rs:101-106 | the byte-sliced and character-sliced channel parsers agree on ASCII text |
| Theme.DoubleAscii | crates/vibepanel-core/src/theme.rs:92-95 | doubling ASCII text leaves it ASCII |
| Theme.Hex2 | crates/vibepanel-core/src/theme.rs:152-154 | `{:02x}`: two lower-case hex digits whose value is the byte |
| Theme.RgbToHex | crates/vibepanel-core/src/theme.rs:152-154 | "#rrggbb": seven characters, a '#' and six lower-case hex digits |
| Theme.ParsePair | crates/vibepanel-core/src/theme.rs:101-103 | two hex digits parse to 16 times the first plus the second |
| Theme.HexDigitsAscii | crates/vibepanel-core/src/theme.rs:101-103 | hex digits are ASCII |
| Theme.HexRoundTrip | crates/vibepanel-core/src/theme.rs:88-154 | parsing the printed hex of any colour gives that colour back |
| Theme.HexBodyChannels | crates/vibepanel-core/src/theme.rs:152-154 | each digit pair of the printed hex encodes the matching channel |
| Theme.BodyOfSix | crates/vibepanel-core/src/theme.rs:97-106 | a six-digit body parses as three two-digit channels |
| Theme.DoubleThree | crates/vibepanel-core/src/theme.rs:92-95 | doubling "xyz" gives "xxyyzz" |
| Theme.ShorthandExpands | crates/vibepanel-core/src/theme.rs:91-95 | "#abc" means "#aabbcc": each digit becomes a channel of 17 times its value |
| Theme.ShortBody | crates/vibepanel-core/src/theme.rs:91-106 | a three-digit body parses to channels 17 times each digit |
| Theme.WrongLengthRejected | crates/vibepanel-core/src/theme.rs:97-99 | a body of any length other than 3 or 6 is rejected |
| Theme.SignedDigit | crates/vibepanel-core/src/theme.rs:101-103 | `from_str_radix` reads a leading '+' as a sign, so "+x" is the digit x |
| Theme.PlusSignAccepted | crates/vibepanel-core/src/theme.rs:88-107 | "+f+f+f" and the like are accepted as colours with one-digit channels |
| Theme.SignedBody | crates/vibepanel-core/src/theme.rs:97-106 | a six-character body "+x+y+z" parses to channels x, y and z |
| Theme.ParseAccentSource | crates/vibepanel-core/src/theme.rs:557-562 | "gtk" and "none" select those sources and only they; any other string is a custom colour holding that string |
| Theme.IsDarkMode | crates/vibepanel-core/src/theme.rs:549-554 | modes "dark" and "gtk" are dark, "light" is light, and any other mode defers to the widget background's darkness |
| Theme.DefaultBackgrounds | crates/vibepanel-core/src/theme.rs:514-527 | GTK variables in "gtk" mode, the light pair in "light" mode, and the dark pair otherwise |
| Theme.AccentPrimary | crates/vibepanel-core/src/theme.rs:565-582 | a custom accent is used as given, GTK's is "@accent_color", and monochrome is translucent white when dark and translucent black when light |
| Theme.FontFamily | crates/vibepanel-core/src/theme.rs:590-594 | an empty font family becomes "inherit"; any other is kept |
| Theme.ComputeRadii | crates/vibepanel-core/src/theme.rs:745-765 | each radius is the configured percentage of the height it rounds, capped at half that height; the pill radius is half the widget radius but at least 1; the surface radius equals the widget radius |
| Theme.PercentAtMostHalf | crates/vibepanel-core/src/theme.rs:752-760 | a percentage of at most 50 never exceeds the half-height cap |
| Theme.WidgetContentGap | crates/vibepanel-core/src/theme.rs:767-789 | the gap between widget children is half the internal spacing (at least 4) plus 5, so at least 9 |
| Tray.FromOptions | crates/vibepanel/src/widgets/tray.rs:60-83 | an integer max_icons is cast to usize and an integer pixmap_icon_size to i32, each by wrap-around; otherwise the default limit and the theme's icon size |
| Tray.NegativeMaxIconsLiftsLimit | crates/vibepanel/src/widgets/tray.rs:60-83 | a negative max_icons does not hide the tray: it wraps to a limit of at least 2^63 |
| Tray.RebuildIconOrder | crates/vibepanel/src/widgets/tray.rs:424-448 | the container ends in the desired order and is rebuilt exactly when that order differs from the current one |
| Tray.SyncItems | crates/vibepanel/src/widgets/tray.rs:221-303 | the buttons are exactly the first maxIcons items, in the service's order; the widget shows exactly when an item is kept; an open menu survives exactly when its item is still kept; the pixmap cache is untouched |
| Tray.SyncIdempotent | crates/vibepanel/src/widgets/tray.rs:221-303 | a second sync with the same items changes nothing and does not rebuild the container |
| Tray.GetCachedTexture | crates/vibepanel/src/widgets/tray.rs:450-473 | a cached texture is returned as is; a missing one is built and stored, after emptying a cache that reached 50 entries; an unbuildable one changes nothing |
| Tray.CacheBounded | crates/vibepanel/src/widgets/tray.rs:464-470 | the texture cache never holds more than 50 entries |
| Tray.CacheHitAfterStore | crates/vibepanel/src/widgets/tray.rs:450-473 | a texture just stored is found again |
| Tray.ArgbToRgba | crates/vibepanel/src/widgets/tray.rs:519-539 | the output holds the whole pixels of the input, four bytes each, and drops a trailing partial pixel |
| Tray.ArgbToRgbaBytes | crates/vibepanel/src/widgets/tray.rs:519-539 | each output byte is the matching channel of the same input pixel, alpha moved from first to last |
| Tray.ArgbRoundTrip | crates/vibepanel/src/widgets/tray.rs:519-539 | converting back recovers the whole pixels of the original |
| Tray.GrayscaleIffNarrowSpread | crates/vibepanel/src/widgets/tray.rs:542-546 | a pixel is gray exactly when its channels span at most the tolerance |
| Tray.TargetGray | crates/vibepanel/src/widgets/tray.rs:635-659 | the target gray lies between the theme's gray and mid-gray |
| Tray.EntryLabel | crates/vibepanel/src/widgets/tray.rs:900-925 | an entry's label is its toggle mark, its text, and an arrow for a submenu, with a space between the text and the arrow when there is text |
| Tray.ToggledShowsMark | crates/vibepanel/src/widgets/tray.rs:900-912 | a toggled entry starts with a dot for a radio item and a check mark otherwise |
| Tray.RenderLevel | crates/vibepanel/src/widgets/tray.rs:847-938 | the back button shows exactly below the root level, and an empty level shows a single note |
| Tray.Back | crates/vibepanel/src/widgets/tray.rs:940-951 | going back pops one level and never the root |
| Tray.EntryClicked | crates/vibepanel/src/widgets/tray.rs:953-981 | an entry with a submenu opens it as a new level; any other entry is reported as clicked and the menu closes |
| Tray.BackUndoesSubmenu | crates/vibepanel/src/widgets/tray.rs:940-981 | opening a submenu and going back returns to the same level |
| Tray.BackReachesRoot | crates/vibepanel/src/widgets/tray.rs:940-951 | going back from any depth reaches the root and stays there |
| Tray.ButtonClicked | crates/vibepanel/src/widgets/tray.rs:708-745 | an item that is no menu is activated; for a menu item any open menu closes, and the click asks for entries unless it was that item's menu that was open |
| Tray.MenuFetched | crates/vibepanel/src/widgets/tray.rs:759-790 | an empty reply, a button that is gone or another item's menu opened meanwhile leave the state alone; otherwise the menu opens for the item |
| Tray.ClickTogglesMenu | crates/vibepanel/src/widgets/tray.rs:723-845 | clicking a menu item opens its menu at the root without a back button, and clicking it again closes it |
| Tray.MenuClosed | crates/vibepanel/src/widgets/tray.rs:834-840 | closing the popover forgets the open menu and nothing else |
| UiHelpers.SetIconActive | crates/vibepanel/src/widgets/quick_settings/ui_helpers.rs:59-67 | an active icon has the active class and not the primary colour class, an inactive one the reverse, and no other class changes |
| UiHelpers.BuildAccentSubtitle | crates/vibepanel/src/widgets/quick_settings/ui_helpers.rs:88-110 | the accent word stands alone; the remainder is absent exactly when there are no extra parts, and otherwise each extra part follows a " • " bullet |
| UiHelpers.CollapseRevealerInstant | crates/vibepanel/src/widgets/quick_settings/ui_helpers.rs:326-333 | a revealed revealer is collapsed with a zero transition and keeps its configured duration; a collapsed one is left alone |
| UiHelpers.CollapseCard | crates/vibepanel/src/widgets/quick_settings/ui_helpers.rs:144-161 | a card other than the excepted one ends collapsed; the excepted card, a card without a revealer and a collapsed card are unchanged |
| UiHelpers.CollapseOthers | crates/vibepanel/src/widgets/quick_settings/ui_helpers.rs:144-161 | every card of the row is collapsed except the one owning the given revealer, and the row keeps its length |
| UiHelpers.ClickExpander | crates/vibepanel/src/widgets/quick_settings/ui_helpers.rs:189-226 | clicking a card without a revealer does nothing; otherwise the card toggles and its arrow follows; expanding collapses every other card, collapsing leaves the others alone |
| UiHelpers.ClickKeepsAtMostOne | crates/vibepanel/src/widgets/quick_settings/ui_helpers.rs:124-226 | the accordion's promise: with at most one card revealed before a click, at most one is revealed after it, and an expanded card is the only revealed one |
| Updates.WrapU64 | crates/vibepanel/src/widgets/updates.rs:37-47 | the `as u64` cast of the integer option: the result is a `u64` congruent to the input, and equal to it when it is already in range |
| Updates.FromOptions | crates/vibepanel/src/widgets/updates.rs:37-58 | `check_interval` defaults to 3600 seconds and an integer is taken through the `u64` cast; `terminal` is kept only when it is a string |
| Updates.ConfigExamples | crates/vibepanel/src/widgets/updates.rs:193-221 | the defaults test (3600, no terminal) and the custom test (1800, "ghostty") |
| Updates.NegativeIntervalWraps | crates/vibepanel/src/widgets/updates.rs:37-47 | a check interval of -1 becomes 2^64 - 1 seconds rather than being rejected |
| Updates.Update | crates/vibepanel/src/widgets/updates.rs:139-186 | the widget is visible exactly when the service is available and has updates or an error; a hidden widget keeps its classes and label; when shown the error class is on iff there is an error, the checking class iff there is no error and a check runs, and the label is "!" on error and otherwise the decimal update count |
| Updates.ClassesExclusive | crates/vibepanel/src/widgets/updates.rs:159-171 | the error and checking classes are never on together after an update |
| Updates.LabelDistinguishesError | crates/vibepanel/src/widgets/updates.rs:176-180 | a shown label is all digits exactly when there is no error |
| Vpn.FromU32 | crates/vibepanel/src/services/vpn.rs:48-69 | the NetworkManager state codes 1 to 4 decode to the state with that code; any other code is unknown |
| Vpn.FromU32Code | crates/vibepanel/src/services/vpn.rs:48-69 | decoding a state's own code gives the state back |
| Vpn.Primary | crates/vibepanel/src/services/vpn.rs:119-131 | the primary connection is absent only for an empty list and is always a listed one; an active connection wins, and with none active the preferred UUID wins when it is listed |
| Vpn.ConnectionFromSettings | crates/vibepanel/src/services/vpn.rs:699-801 | a settings entry becomes a connection exactly when its type is WireGuard or OpenVPN and it has a UUID; the name defaults to empty, autoconnect to false, and it is active, with the active connection's state, exactly when its UUID is among the active ones |
| Vpn.ComparatorTotal | crates/vibepanel/src/services/vpn.rs:439-457 | the connection order is total, as the sort requires |
| Vpn.RankRespected | crates/vibepanel/src/services/vpn.rs:439-457 | the order puts active connections before inactive ones, and the preferred UUID before the others |
| Vpn.SortConnections | crates/vibepanel/src/services/vpn.rs:439-457 | the sorted list is a permutation of the input in the comparator's order |
| Vpn.ConnectionsRefreshed | crates/vibepanel/src/services/vpn.rs:396-472 | the published snapshot is available and ready, holds a sorted permutation of the connections, the active count and the any-active flag; the first active connection becomes the last-used UUID, saved only when it changed; with none active nothing is saved |
| Vpn.ActiveFirst | crates/vibepanel/src/services/vpn.rs:400-465 | in a published list the active connections form a prefix exactly as long as the active count |
| Vpn.PrimaryIsHead | crates/vibepanel/src/services/vpn.rs:119-131 | after a refresh the primary connection is the head of the list |
| Vpn.QueueRefresh | crates/vibepanel/src/services/vpn.rs:485-502 | a refresh is scheduled exactly when none is pending, and afterwards one is |
| Vpn.SignalsCoalesce | crates/vibepanel/src/services/vpn.rs:469-502 | a burst of change signals schedules one refresh, and its result lets the next signal schedule again |
| Vpn.SetUnavailable | crates/vibepanel/src/services/vpn.rs:504-519 | an available service falls back to the unknown snapshot keeping the preferred UUID and notifies; an unavailable one is untouched |
| Vpn.SetUnavailableIdempotent | crates/vibepanel/src/services/vpn.rs:504-519 | losing the service twice changes nothing the second time |
| VpnCard.BeginConnect | crates/vibepanel/src/widgets/quick_settings/vpn_card.rs:70-79 | the UUID joins the pending connects, and the keyboard is released exactly when a panel window is open |
| VpnCard.BeginDisconnect | crates/vibepanel/src/widgets/quick_settings/vpn_card.rs:82-84 | the UUID joins the pending disconnects and nothing else changes |
| VpnCard.RestoreIfReleased | crates/vibepanel/src/widgets/quick_settings/vpn_card.rs:87-97 | the keyboard mode is restored exactly when it was released and a window is open; the pending sets stay |
| VpnCard.Clear | crates/vibepanel/src/widgets/quick_settings/vpn_card.rs:100-105 | closing the panel forgets every pending action and restores a released keyboard of an open window |
| VpnCard.StateOfFirst | crates/vibepanel/src/widgets/quick_settings/vpn_card.rs:117-149 | the state consulted is that of the first connection with the UUID, and there is none only when no connection has it |
| VpnCard.CheckPending | crates/vibepanel/src/widgets/quick_settings/vpn_card.rs:109-180 | a pending disconnect is dropped exactly when its connection is gone, deactivated or unknown; pending connects are looked at only while the keyboard is released and dropped exactly when they settled; an action completed exactly when a connect activated or a disconnect settled, and the keyboard comes back exactly when a connect settled |
| VpnCard.ConnectReleasesThenRestores | crates/vibepanel/src/widgets/quick_settings/vpn_card.rs:70-180 | a connect from an open panel releases the keyboard, and the snapshot in which it is activated completes it, clears it and gives the keyboard back |
| VpnCard.ActivatingKeepsWaiting | crates/vibepanel/src/widgets/quick_settings/vpn_card.rs:130-132 | a connection still activating keeps its pending entry |
| VpnCard.CardSubtitle | crates/vibepanel/src/widgets/quick_settings/vpn_card.rs:427-441 | the subtitle is "Unavailable" without the service, "VPN" before the first load, "No connections" for an empty list, else the primary's name when it is active and "Disconnected" otherwise |
| VpnCard.Toggle | crates/vibepanel/src/widgets/quick_settings/vpn_card.rs:399-409 | the toggle is on exactly when some connection is active, and usable exactly when the service is available and lists a connection |
| VpnCard.ExtraParts | crates/vibepanel/src/widgets/quick_settings/vpn_card.rs:306-317 | a row's extras name autoconnect exactly when it is set, and WireGuard or OpenVPN exactly for those types |
| VpnCard.RowSubtitleOf | crates/vibepanel/src/widgets/quick_settings/vpn_card.rs:333-349 | an active row shows an accent "Active" label, an inactive one "Inactive", each followed by the extras joined by bullets |
| VpnCard.RowSubtitleReads | crates/vibepanel/src/widgets/quick_settings/vpn_card.rs:333-349 | both row styles read as the state word then the extras, separated by bullets |
| VpnCard.AccentReads | crates/vibepanel/src/widgets/quick_settings/vpn_card.rs:335-337 | the accent subtitle reads as its word followed by the muted parts with bullets between |
| VpnCard.JoinCons | crates/vibepanel/src/widgets/quick_settings/vpn_card.rs:340-344 | joining a word before a list puts a separator between them exactly when the list is non-empty |
| VpnCard.Placeholder | crates/vibepanel/src/widgets/quick_settings/vpn_card.rs:290-300 | the list shows "Loading VPN state..." before the first load, then "No VPN connections" exactly when the list is empty |
| WifiCard.WifiIconName | crates/vibepanel/src/widgets/quick_settings/wifi_card.rs:38-56 | a wired connection, or a machine without Wi-Fi, shows the wired icon; otherwise the full-signal icon exactly when Wi-Fi is on and connected, and the offline icon otherwise |
| WifiCard.WifiStrengthIcon | crates/vibepanel/src/widgets/quick_settings/wifi_card.rs:62-74 | the signal icon by thresholds: excellent from 70, good from 60, ok from 40, weak from 20, none below 20, each an if-and-only-if |
| WifiCard.StrengthIconMonotone | crates/vibepanel/src/widgets/quick_settings/wifi_card.rs:62-74 | a stronger signal never shows fewer bars |
| WifiCard.SubtitleText | crates/vibepanel/src/widgets/quick_settings/wifi_card.rs:121-144 | wired: "Ethernet", followed by the connecting or connected SSID when there is one; otherwise "Connecting to <ssid>", the connected SSID, "Off" for a present but disabled Wi-Fi device, or "Disconnected" |
| WifiCard.ActiveSubtitleNamesConnection | crates/vibepanel/src/widgets/quick_settings/wifi_card.rs:149-155 | the subtitle is styled active only when it names a settled connection (Ethernet or a bare SSID), never while connecting, and an inactive settled subtitle is "Off" or "Disconnected" |
| WifiCard.RowBadges | crates/vibepanel/src/widgets/quick_settings/wifi_card.rs:643-659 | a row shows "Connecting..." exactly while connecting to it, "Secured" exactly when it is not open, "Saved" exactly when known and not connecting, and always ends with the strength percentage |
| WifiCard.PercentIsNoBadge | crates/vibepanel/src/widgets/quick_settings/wifi_card.rs:659 | the strength text ends in '%', so it is never mistaken for a badge |
| WifiCard.OpenPrompt | crates/vibepanel/src/widgets/quick_settings/wifi_card.rs:904-912 | the prompt targets the trimmed SSID, and a blank SSID changes nothing |
| WifiCard.OnNetworkChanged | crates/vibepanel/src/widgets/quick_settings/wifi_card.rs:1100-1145 | with a prompt open: a failure of its SSID shows "Wrong password" and clears the failure, another SSID's failure is ignored, a settled connection to it hides the prompt; with none open: a failure opens the prompt with the error when the window is mapped, and otherwise only clears the failure |
| WifiCard.FailureOpensThenReports | crates/vibepanel/src/widgets/quick_settings/wifi_card.rs:1106-1145 | a failure opens the prompt for that SSID, and the same failure in the next snapshot reports the wrong password instead of reopening it |
| WindowTitle.FromOptions | crates/vibepanel/src/widgets/window_title.rs:49-110 | each option falls back to its default when missing or of the wrong type, and max_chars is cast to i32 keeping its low 32 bits |
| WindowTitle.DefaultConfig | crates/vibepanel/src/widgets/window_title.rs:114-123 | an entry without options gives the default configuration, which shows the application fallback and the icon and does not upper-case |
| WindowTitle.WidthLimit | crates/vibepanel/src/widgets/window_title.rs:174-176 | the label's width is capped exactly when max_chars is positive, at max_chars |
| WindowTitle.Titlecase | crates/vibepanel/src/widgets/window_title.rs:483-489 | the first character is upper-cased and the rest kept |
| WindowTitle.TitlecaseStable | crates/vibepanel/src/widgets/window_title.rs:483-544 | title-casing twice changes nothing more, and does not change what the word lower-cases to |
| WindowTitle.Normalize | crates/vibepanel/src/widgets/window_title.rs:325-328 | normalizing never lengthens the text and keeps the empty text empty |
| WindowTitle.Tokens | crates/vibepanel/src/widgets/window_title.rs:330-335 | the tokens are non-empty pieces of the text split at '_', '-', '.' and ' ' |
| WindowTitle.NameMatchesItself | crates/vibepanel/src/widgets/window_title.rs:344-363 | the application's own name, once it normalizes to something, always matches it |
| WindowTitle.Trims | crates/vibepanel/src/widgets/window_title.rs:366-368 | each title piece is trimmed in place |
| WindowTitle.CleanFrom | crates/vibepanel/src/widgets/window_title.rs:366-382 | the kept segments are some of the pieces, never more of them |
| WindowTitle.CleanFromKept | crates/vibepanel/src/widgets/window_title.rs:366-382 | every kept segment normalizes to something new that does not match the application |
| WindowTitle.CleanFromDistinct | crates/vibepanel/src/widgets/window_title.rs:366-382 | no two kept segments normalize alike |
| WindowTitle.CleanFromComplete | crates/vibepanel/src/widgets/window_title.rs:366-382 | only repeats are lost: a dropped segment that normalizes to something and does not match the application repeats a kept one |
| WindowTitle.CleanFromInOrder | crates/vibepanel/src/widgets/window_title.rs:366-382 | the kept segments keep their title order |
| WindowTitle.CleanSegments | crates/vibepanel/src/widgets/window_title.rs:316-385 | every kept segment is a trimmed piece of the title split at the dash, pipe and dot delimiters |
| WindowTitle.CleanSegmentsAreSegments | crates/vibepanel/src/widgets/window_title.rs:316-385 | every kept segment is non-blank, trimmed and free of delimiters |
| WindowTitle.CleanSegmentsSurvive | crates/vibepanel/src/widgets/window_title.rs:316-559 | every kept segment normalizes to something that does not match the application |
| WindowTitle.CleanSegmentsDistinct | crates/vibepanel/src/widgets/window_title.rs:316-385 | no two kept segments normalize alike |
| WindowTitle.CleanSegmentsInOrder | crates/vibepanel/src/widgets/window_title.rs:316-385 | the kept segments appear in title order |
| WindowTitle.CleanSegmentsComplete | crates/vibepanel/src/widgets/window_title.rs:316-385 | every non-blank segment that does not match the application is kept or repeats a kept one |
| WindowTitle.CleanTitle | crates/vibepanel/src/widgets/window_title.rs:316-385 | the clean title is empty for an empty title, and is the kept segments joined with an em dash between spaces |
| WindowTitle.SplitJoined | crates/vibepanel/src/widgets/window_title.rs:366-384 | segments joined with the em dash split and trim back to themselves |
| WindowTitle.PaddedSegmentWhole | crates/vibepanel/src/widgets/window_title.rs:366-368 | a segment padded with a space is still one piece |
| WindowTitle.CleanFromKeepsAll | crates/vibepanel/src/widgets/window_title.rs:366-382 | segments that all survive the filter come through unchanged |
| WindowTitle.CleanJoinRoundTrip | crates/vibepanel/src/widgets/window_title.rs:316-385 | joining segments that would all be kept and cleaning the result gives the joined title back |
| WindowTitle.CleanTitleIdempotent | crates/vibepanel/src/widgets/window_title.rs:316-385 | cleaning a cleaned title changes nothing |
| WindowTitle.AppSegmentDropped | crates/vibepanel/src/widgets/window_title.rs:316-559 | "<app> — <page>" for that application keeps only the page |
| WindowTitle.TwoSegmentsSplit | crates/vibepanel/src/widgets/window_title.rs:366-368 | two segments joined with the em dash split back into the two |
| WindowTitle.DropFirstKeepSecond | crates/vibepanel/src/widgets/window_title.rs:366-382 | the filter drops a first segment that does not survive and keeps a second one that does |
| WindowTitle.AppBase | crates/vibepanel/src/widgets/window_title.rs:399 | the base of an app id never starts with '@', ':' or a space |
| WindowTitle.FilterSound | crates/vibepanel/src/widgets/window_title.rs:407-410 | the token filter keeps only accepted pieces of its input |
| WindowTitle.FilterComplete | crates/vibepanel/src/widgets/window_title.rs:407-410 | the token filter keeps every accepted piece of its input |
| WindowTitle.FilterAppend | crates/vibepanel/src/widgets/window_title.rs:407-410 | filtering a concatenation filters each part in turn |
| WindowTitle.AppTokensSpec | crates/vibepanel/src/widgets/window_title.rs:405-410 | the tokens are exactly the non-empty pieces whose lower-case form is no stop word |
| WindowTitle.TitlecasedToken | crates/vibepanel/src/widgets/window_title.rs:412-489 | title-casing a meaningful token free of separators keeps it meaningful and free of separators |
| WindowTitle.DeriveAppName | crates/vibepanel/src/widgets/window_title.rs:388-421 | the name is empty exactly when the id's base is; it is the last meaningful token title-cased, else the whole base title-cased |
| WindowTitle.NameFromBase | crates/vibepanel/src/widgets/window_title.rs:399-421 | for a trimmed base the name is empty exactly for an empty base, the last meaningful token title-cased, else the base title-cased |
| WindowTitle.LastTokenNamed | crates/vibepanel/src/widgets/window_title.rs:412-415 | the last meaningful token gives a non-empty name free of separators |
| WindowTitle.AppBaseOfClean | crates/vibepanel/src/widgets/window_title.rs:399 | an id without surrounding junk is its own base |
| WindowTitle.SuffixedClean | crates/vibepanel/src/widgets/window_title.rs:399 | a clean id followed by a separator and a clean word is clean |
| WindowTitle.StopSuffixIgnored | crates/vibepanel/src/widgets/window_title.rs:405-415 | a trailing stop word after a separator does not change the name |
| WindowTitle.SameTokensSameName | crates/vibepanel/src/widgets/window_title.rs:405-415 | two bases with the same meaningful tokens, at least one, name the application alike |
| WindowTitle.FilterDropsSuffix | crates/vibepanel/src/widgets/window_title.rs:405-410 | a trailing piece that the filter drops does not change the filtered tokens |
| WindowTitle.DesktopSuffixIgnored | crates/vibepanel/src/widgets/window_title.rs:405-415 | an id ending in ".desktop" names the application as the id without it |
| WindowTitle.DesktopStopWord | crates/vibepanel/src/widgets/window_title.rs:405-408 | "desktop" is a single stop word and '.' separates tokens |
| WindowTitle.FriendlyAppName | crates/vibepanel/src/widgets/window_title.rs:388-421 | an empty id gives the empty name and leaves the cache alone; otherwise the answer is stored for the id, earlier entries are kept and nothing else is added |
| WindowTitle.FriendlyAppNameSound | crates/vibepanel/src/widgets/window_title.rs:388-421 | a cache holding only derived names answers with the derived name and stays that way |
| WindowTitle.FriendlyAppNameMemoized | crates/vibepanel/src/widgets/window_title.rs:388-421 | asking twice gives the same answer and leaves the cache as the first answer left it |
| WindowTitle.DisplayText | crates/vibepanel/src/widgets/window_title.rs:264-274 | without the fallback the display is the clean title; with it, it always starts with the application's name: the name alone for an empty title, the title when it already starts with the name, else "<name> — <title>" |
| WindowTitle.Replace | crates/vibepanel/src/widgets/window_title.rs:286 | a text without the placeholder is unchanged, and the placeholder alone becomes the value |
| WindowTitle.NoBraceNoPlaceholder | crates/vibepanel/src/widgets/window_title.rs:276-287 | a text without '{' contains no placeholder |
| WindowTitle.PlaceholderValues | crates/vibepanel/src/widgets/window_title.rs:277-285 | there is one value for each placeholder name |
| WindowTitle.FinishLabel | crates/vibepanel/src/widgets/window_title.rs:289-307 | the label is the trimmed expansion when it is not blank; otherwise the application's name when the fallback is on and the name is known, the title, or the empty text |
| WindowTitle.UppercaseAppliesLast | crates/vibepanel/src/widgets/window_title.rs:303-307 | the uppercase option upper-cases the label the other rules produce |
| WindowTitle.PlaceholderDistinct | crates/vibepanel/src/widgets/window_title.rs:276-287 | two different brace-free names give placeholders that never contain one another |
| WindowTitle.ReplaceOtherPlaceholder | crates/vibepanel/src/widgets/window_title.rs:286 | replacing one placeholder leaves another placeholder alone |
| WindowTitle.SubstituteNoBrace | crates/vibepanel/src/widgets/window_title.rs:276-287 | substitution leaves a text without '{' unchanged |
| WindowTitle.FirstMatchShowsValue | crates/vibepanel/src/widgets/window_title.rs:276-287 | a placeholder becomes the value of the first key naming it, which stays when it holds no '{' |
| WindowTitle.PlaceholderKeysDistinct | crates/vibepanel/src/widgets/window_title.rs:277-285 | the seven placeholder names are brace-free and pairwise different |
| WindowTitle.DefaultTemplateShowsDisplay | crates/vibepanel/src/widgets/window_title.rs:24 | with the default template "{display}" the expansion is exactly the display text |
| WindowTitle.TitlePlaceholderExpanded | crates/vibepanel/src/widgets/window_title.rs:276-287 | values are substituted one after another, so a window titled "{app}" under the template "{title}" shows the application's name |
| WindowTitle.AppPlaceholderAfterTitle | crates/vibepanel/src/widgets/window_title.rs:277-286 | past the title, "{app}" becomes the application's name and stays so when the name holds no '{' |
| WindowTitle.PlaceholderTrimmed | crates/vibepanel/src/widgets/window_title.rs:289-301 | a placeholder has no surrounding whitespace |
| WindowTitle.SubstituteOwnPlaceholder | crates/vibepanel/src/widgets/window_title.rs:276-287 | the first key's own placeholder is replaced by the first value before the other keys are substituted |
| WindowTitle.OnSnapshot | crates/vibepanel/src/widgets/window_title.rs:186-241 | an update for another output leaves the label alone; any other renders the label from the derived application name and keeps the name cache sound |
| Workspace.LabelTypeFromStr | crates/vibepanel/src/widgets/workspace.rs:35-44 | the label type ignores letter case: "numbers" gives numbers, "none" the minimal style, anything else glyphs |
| Workspace.LabelTypeRoundTrip | crates/vibepanel/src/widgets/workspace.rs:35-44 | every label type reads back from its own name, also upper-cased |
| Workspace.UnknownLabelTypeIsIcons | crates/vibepanel/src/widgets/workspace.rs:35-44 | an unrecognised value falls back to glyphs |
| Workspace.FromOptions | crates/vibepanel/src/widgets/workspace.rs:60-84 | a string label_type is parsed and any other value gives the default; the separator is the string given or the empty default; the colour is passed through |
| Workspace.DefaultConfig | crates/vibepanel/src/widgets/workspace.rs:46-84 | no options give the minimal style with no separator |
| Workspace.NumbersConfig | crates/vibepanel/src/widgets/workspace.rs:60-84 | a "numbers" label type and a bar-character separator are taken as given |
| Workspace.SourceView | crates/vibepanel/src/widgets/workspace.rs:245-271 | an indicator row draws from its own output's view when the snapshot knows that output, and from the global view otherwise |
| Workspace.DisplayIds | crates/vibepanel/src/widgets/workspace.rs:280-300 | the ids shown are exactly those of the occupied workspaces and the active one |
| Workspace.DisplayWorkspaces | crates/vibepanel/src/widgets/workspace.rs:280-300 | every workspace shown is one of the view's with an id to show |
| Workspace.DisplayedIffOccupiedOrActive | crates/vibepanel/src/widgets/workspace.rs:280-300 | with unique ids a workspace is shown exactly when it is occupied or active |
| Workspace.DisplayKeepsOrder | crates/vibepanel/src/widgets/workspace.rs:280-300 | indicators follow the service's order: the first part of a view is shown before the second |
| Workspace.EmptyInactiveHidden | crates/vibepanel/src/widgets/workspace.rs:280-300 | an empty workspace that is not active gets no indicator |
| Workspace.CreateIndicators | crates/vibepanel/src/widgets/workspace.rs:170-226 | a row holds one indicator per workspace, plus one separator between each neighbouring pair when the separator is not empty |
| Workspace.RowWithoutSeparators | crates/vibepanel/src/widgets/workspace.rs:170-218 | without a separator the row is the indicators alone, in order |
| Workspace.RowWithSeparators | crates/vibepanel/src/widgets/workspace.rs:170-226 | with a separator, the indicators sit at the even places in order and separators between them |
| Workspace.IdsOf | crates/vibepanel/src/widgets/workspace.rs:312-333 | the row's ids are the workspaces' ids in order |
| Workspace.UpdateRow | crates/vibepanel/src/widgets/workspace.rs:233-370 | with nothing to show a row that had indicators is cleared; otherwise it is rebuilt exactly when the ids to show differ from those shown, and afterwards the ids shown are the ones to show |
| Workspace.UpdateRowStable | crates/vibepanel/src/widgets/workspace.rs:312-333 | a second update with the same workspaces changes nothing |
| Workspace.StateClassOf | crates/vibepanel/src/widgets/workspace.rs:355-362 | one state class: active over occupied over urgent, and none for an idle workspace |
| Workspace.LabelText | crates/vibepanel/src/widgets/workspace.rs:152-353 | with glyphs, the active, occupied or empty glyph by state; with numbers, the name; in the minimal style the text it was created with |
| Workspace.GlyphMatchesClass | crates/vibepanel/src/widgets/workspace.rs:346-362 | the glyph and the class agree on active and occupied, and an urgent idle workspace keeps the empty glyph |
| Workspace.TooltipHeader | crates/vibepanel/src/widgets/workspace.rs:378-385 | the header is "Workspace N", followed by ": name" when the name is not just the number |
| Workspace.TooltipParts | crates/vibepanel/src/widgets/workspace.rs:374-406 | the tooltip has the header, a state line only when active or urgent, and the window line last |
| Workspace.BuildTooltip | crates/vibepanel/src/widgets/workspace.rs:374-406 | the tooltip's lines: header, "Active" or "Urgent" when so, then the window count |
| Workspace.TooltipOpensWithNumber | crates/vibepanel/src/widgets/workspace.rs:378-385 | whatever the name, the tooltip opens with the workspace's number |
| Workspace.SingularForOneWindow | crates/vibepanel/src/widgets/workspace.rs:394-403 | the window line says "window" in the singular exactly for one window |

## Left out

- GTK/GDK widget construction, CSS text and layer-shell window setup have no behaviour to state beyond widget calls:
  - window.rs, components.rs and bar.rs;
  - sectioned_bar.rs, whose arithmetic is modelled in `LayoutMath`;
  - the media pop-out, popover and power-card files.
- D-Bus proxies, Unix sockets, `nmcli` and other child processes are outside the model. Their replies enter as records or events:
  - the Niri and Hyprland socket reads and their JSON decoding;
  - the MPRIS command-line client (media.rs:1222-1440);
  - Bluetooth `set_powered`/scan/connect/disconnect/pair/forget calls;
  - VPN activate/deactivate and active-connection lookup.
- State-file persistence (notification history, VPN and media IPC state) is reduced to the records that would be saved and a count of saves.
- Threads, `glib` idle sources and timers have no counterpart; each event is applied at once. This covers:
  - the media 100 ms re-poll and position polling;
  - toast animation and timeouts;
  - the compositor reconnect backoff (1000 ms doubling by 1.5 up to 30000 ms);
  - the configuration file watcher.
- The only coalescing modelled is the single pending flag of the Bluetooth and VPN services.
- Floating-point computations are out of scope, and the panel's integer decisions take their results as inputs:
  - `format_power`;
  - CPU usage and memory figures;
  - luminance, `blend_colors`, `rgba_str` and the contrast ratio;
  - the tray's `analyze_edge_pixels` and grayscale scaling;
  - the theme's `*_SCALE` size factors and the `compute_*` derivations.
  Opacities are modelled as reals, and only their comparisons and clamps are stated. `is_dark_color` enters `Theme.IsDarkMode` as a parameter.
- The clock's `strftime` rendering and notification timestamps (`format_timestamp`) read the system clock and chrono's calendar. The model takes formatted pieces and the current date as inputs.
- Serde decoding of TOML, including `deny_unknown_fields` and untagged enums, is not modelled. Configuration arrives as an already-parsed `Toml` tree or `Config` record, and file reads are a parameter of `Config.FindAndLoad`.
- Unicode case mapping (`to_uppercase`, `to_lowercase`) is modelled on ASCII letters only. Other characters are left unchanged.
- Rust `HashMap` iteration order is unspecified. The model fixes a sequence order in its place:
  - `MediaService.SelectAuto`: `players.values().find` (media.rs:775 and 811) picks an arbitrary matching player; the model picks the first in sequence order.
  - `Niri`: `id_to_output` is searched through `outputOrder`, in insertion order.
  - `Network.Dedupe`: merged entries keep the order of first appearance. The sort that follows (network.rs:870-895) is stable, so entries that tie on group, strength and SSID keep that order; in the source their order comes from the hash. An open and a secured network with the same SSID and strength are an example.
  - `Config.UnreferencedConfigs`: reported as a set rather than in map order.
  - `NotificationService`: the store is a `HashMap<u32, Notification>` (notification.rs:160). The model keeps it as a sequence in insertion order, which matters for the members below.
- NotificationService.CloseAll: `close_all` collects `keys()` (notification.rs:301-309) and emits its `Closed` signals in hash order. The model emits them in the store's sequence order; only the set of signals is the source's promise.
- NotificationService.EnforceLimit: eviction (notification.rs:689-698) sorts the (id, timestamp) pairs, collected in hash order, and removes the first ones. Which of several notifications sharing a timestamp at the cut are removed therefore depends on the hash. `OldestIndex` takes the first in the sequence instead. `SaveState` has the same limit: the newest-first sort (notification.rs:770-779) is stable over a hash-ordered list, and `SortNewestFirst` leaves equal timestamps in sequence order.
- Niri.BestIndex: `win_cache` is a `HashMap`, so `win_cache.values()` (niri.rs:337) meets the windows in an arbitrary order. With two or more unfocused windows on the active workspace, the source shows whichever comes first in hash order. The model takes the first in the cache's insertion order. A focused window on the workspace is chosen either way.
- Niri.RefreshFocused: the same walk over `win_cache.values()` (niri.rs:372) takes the first focused window in hash order, and the model takes the first in insertion order. The two agree whenever at most one cached window is marked focused.
- Icon theme lookup, app-icon resolution from desktop files, and font registration (icons.rs) are outside the model. Theme membership is the parameter `hasIcon`.
- `UiHelpers`: the scan button, placeholder rows and list-box builders only construct widgets.
- `css_vars_block` and the other CSS emitters (theme.rs) produce presentation text only.
- The UPower and power-profiles services (services/battery.rs) are not part of this model. The battery widgets take their snapshots as inputs.
- services/tray.rs, services/workspace.rs and widgets/updates_common.rs are not part of this model. Their records carry only the fields the modelled code reads.
- The callback multiplexer in compositor/manager.rs and the command-line handlers in main.rs are plumbing around services, and are left out.
- `BarManager`: a bar's configuration is its output list plus a `generation` number that stands for the rest of the configuration. A rebuild shows up as a new generation.
- `MediaWidget.FromOptions`: `popout_opacity` is clamped as a real, not an `f64`.
- BatteryWidget.RoundedPctValue: the percentage is a real, so the NaN case (which returns 0) and infinities are not modelled. `BatteryPopover.PercentLabel` takes the same real and rounds it with `FormatRounded`.
- LayoutMath: the allocation uses unbounded integers where layout_math.rs uses `i32`. Its sums and differences of pixel widths (layout_math.rs:29-200) would overflow only past 2^31 pixels, which GTK never allocates, so no wrap is modelled.
- Window counts in the Niri and Hyprland snapshots are natural numbers, so the `usize` bound is not modelled.
- Strings are `seq<char>`. Where the source counts bytes, as in the tag length of `try_parse_tag`, the model sums UTF-8 widths with `Common.ByteLen`.

## Findings

| source | as written | input that shows it | evidently intended | confidence | as-written member | corrected member |
|---|---|---|---|---|---|---|
| crates/vibepanel-core/src/config.rs:703-723 | `is_flexible_spacer` treats any `spacer:<arg>` as a fixed spacer, but `resolve_widget` ignores an argument that is not a positive integer and builds an expanding spacer | section `["spacer:abc"]` | the expander test agrees with how the spacer is built | high, not executed | Config.InvalidInlineWidthMisclassified | Config.ExpanderTestsAgree |
| crates/vibepanel-core/src/theme.rs:88-107 | `parse_hex_color` doubles a 3-digit colour and then slices it by byte offsets | accent colour `"€"`: three bytes, doubled to six, and `[0..2]` cuts a character in half and panics | a non-hex colour is rejected with `None` | high, not executed | Theme.ParseHexColorPanics | Theme.AsWrittenAgreesOnAscii |
| crates/vibepanel/src/services/config_manager.rs:398-458 | `config_structure_changed` compares widget tables in `HashMap` iteration order | a reload that only reorders `[widgets.*]` tables | no bar rebuild when only table order differs | medium, not executed | ConfigManager.ReorderedTablesForceRebuild | ConfigManager.StructureChangedIgnoresOrder |
| crates/vibepanel/src/widgets/notification_common.rs:222-228 | `<a>` attributes are copied unescaped into the sanitized markup | body `<a href=x&y>link</a>` yields a bare `&` | output safe for `set_markup`, with `&` escaped | high, not executed | NotificationCommon.AnchorAttributesUnescaped | NotificationCommon.SanitizeBodyMarkupAmpSafe |
| crates/vibepanel/src/widgets/notification_common.rs:123-126 | the tag's byte length is skipped as a character count | body `<b é>x`: the tag is 6 bytes but 5 characters, so `x` is lost | resume right after the tag | high, not executed | NotificationCommon.AsWrittenSkipsPastTag | NotificationCommon.IntendedResumesAfterTag |
| crates/vibepanel/src/widgets/media.rs:242-296 | `render_text_from_elements` sees through any value that looks like punctuation, not only literals | artist `"!!!"`, literal `" - "`, title `"Song"` renders without the separator | literals are seen through, values never are | medium, not executed | MediaWidget.PunctuationValueLosesSeparator | MediaWidget.SeparatorBetweenValues |
| crates/vibepanel/src/services/compositor/hyprland.rs:183-250 | `fetch_initial_state` adds the focused monitor's workspace to the active set without clearing it | a refetch after active `{a}`, with the monitor now on `b`, leaves `{a, b}` | the active set is replaced by the refetched one | medium, not executed | Hyprland.RefetchKeepsOldActive | Hyprland.RefetchIntendedReplacesActive |
