# DangIt, modelled in Dafny

DangIt is a Kerbal Space Program mod that makes parts fail at random and lets kerbals
repair them on EVA with spare parts. Every failure module ages its part. The part's mean
time between failures decays with age, and each update rolls the dice. A failed part
glows red, plays an alarm and posts a message. A kerbal on EVA who carries enough
SpareParts can repair it. Spare parts move between a container part and a kerbal's suit.
Kerbals may carry perks (a specialty at a level) that the repairs and the roster window
look at. The user settings are read from and written to ConfigNodes.

The repository holds three generations of this code side by side:

- the oldest (`FailureModule.cs`, `DangIt.cs`, `DangIt/Runtime.cs`, `DangIt/Settings.cs`,
  `ModuleSparesContainer.cs`, `CrewFiles/PerkGenerator.cs`);
- a middle one (`ModuleBaseFailure.cs` with its battery, tank and control-surface
  subclasses, `Runtime/`, `Perks/`, `Maintenance/`, `SparesContainer.cs`);
- the newest (`DangIt/Runtime/`, `DangIt/Maintenance/`, `DangIt/Perks/`,
  `DangIt/Utilities/`, `DangIt/API/`).

Each core file becomes one Dafny module, in the file's own form:

- Classes whose methods update fields become Dafny classes: the failure modules, the
  spares containers, the alarm manager, the runtime controllers, the settings and roster
  windows, engines and parts. Their methods state the whole new state in `ensures`.
- Records and pure helpers become datatypes and functions: settings records, perks,
  ConfigNodes, part trees, text conversions.
- Loops in the source become `while` loops with invariants, proved against specification
  functions. Lemmas then state what the source promises about those functions.

The clock, the random draws, file contents, the active vessel and the game's scene are
parameters of the operations that read them.

## Model

| member | source | states |
|---|---|---|
| Alarms.FirstSlot | source/DangIt/Runtime/AlarmManager.cs:54 | `loops.ElementAt(0)` is the first occupied slot: every slot before it is free; -1 exactly when the dictionary is empty |
| Alarms.SlotOf | source/DangIt/Runtime/AlarmManager.cs:75 | the slot holding a key, or -1 exactly when no occupied slot holds it |
| Alarms.LoopsOfKeys | source/DangIt/Runtime/AlarmManager.cs:75 | `loops.Keys.Contains(fm)` holds exactly when some slot holds `fm` |
| Alarms.LoopsOfValue | source/DangIt/Runtime/AlarmManager.cs:87 | with distinct keys, the dictionary maps each occupied slot's key to that slot's count |
| Alarms.LoopsOfClear | source/DangIt/Runtime/AlarmManager.cs:55 | freeing a slot removes exactly its key from the dictionary |
| Alarms.LoopsOfFill | source/DangIt/Runtime/AlarmManager.cs:43 | filling a free slot with a new key adds exactly that key and puts it at that slot's place in the enumeration order |
| Alarms.LoopsOfAppend | source/DangIt/Runtime/AlarmManager.cs:43 | appending a slot for a new key adds exactly that key, last in the enumeration order |
| Alarms.EmptyOrderEmptyLoops | source/DangIt/Runtime/AlarmManager.cs:53 | `loops.Count > 0` exactly when the enumeration order is non-empty |
| Alarms.Dec | source/DangIt/Runtime/AlarmManager.cs:60 | `element.Value - 1` on a C# `int`: one less, except that the minimum wraps to the maximum |
| Alarms.ForeverStaysNegative | source/DangIt/Runtime/AlarmManager.cs:58-60 | a negative count other than the minimum stays negative and never reaches 0 or 1 when decremented, so such an alarm repeats while the vessel stays active |
| Alarms.AlarmManager.NoZeroCount | source/DangIt/Runtime/AlarmManager.cs:41-46 | no module is ever stored with a zero count |
| Alarms.AlarmManager.constructor | source/DangIt/Runtime/AlarmManager.cs:28 | Start: an empty dictionary |
| Alarms.AlarmManager.Insert | source/DangIt/Runtime/AlarmManager.cs:43 | `Dictionary.Add` of a new key: the map gains the key; the most recently freed slot is reused, otherwise the key goes last in the enumeration order |
| Alarms.AlarmManager.RemoveSlot | source/DangIt/Runtime/AlarmManager.cs:55 | `Dictionary.Remove`: the key leaves the map and its slot heads the free list |
| Alarms.AlarmManager.AddAlarm | source/DangIt/Runtime/AlarmManager.cs:37-47 | a count of 0 adds nothing; a module already present raises the ArgumentException of `Add` and changes nothing; otherwise the module maps to its count |
| Alarms.AlarmManager.Update | source/DangIt/Runtime/AlarmManager.cs:49-70 | while a clip plays, or with no alarms, nothing changes; otherwise the first entry is removed and re-added with one loop less when its count is neither 0 nor 1 and its vessel is active, else its module is told the alarms are done; the dictionary never grows |
| Alarms.AlarmManager.RemoveAllAlarmsForModule | source/DangIt/Runtime/AlarmManager.cs:72-80 | a module with alarms loses them and is told they are done; any other module changes nothing |
| Alarms.AlarmManager.HasAlarmsIffKey | source/DangIt/Runtime/AlarmManager.cs:82-94 | HasAlarmsForModule holds exactly when the module has an entry, because no entry holds 0 |
| Api.CountFailedZero | source/DangIt/API/API.cs:21-22 | a part's own count is 0 exactly when none of its FailureModules has failed |
| Api.SumZero | source/DangIt/API/API.cs:25-26 | the children's counts add up to 0 exactly when each is 0 |
| Api.FailureCountZero | source/DangIt/API/API.cs:16-29 | a part tree counts no failures exactly when no FailureModule anywhere in it has failed |
| Api.CountFailedFiltered | source/DangIt/API/API.cs:21 | `OfType<FailureModule>()` leaves the count unchanged: other modules never count |
| Api.CountFailedConcat | source/DangIt/API/API.cs:21-22 | counting failures over two module lists adds their counts |
| Api.CountFailuresRecursive | source/DangIt/API/API.cs:16-29 | the loops return the number of failed FailureModules in the whole subtree |
| Api.ChildCounts | source/DangIt/API/API.cs:25-26 | one count per child, in order, each that child's subtree count |
| Api.OwnAndChildren | source/DangIt/API/API.cs:18-28 | the part's own failures plus the sum over its children is the subtree count |
| Api.CountFailures | source/DangIt/API/API.cs:11-14 | a vessel without a root part raises the NullReferenceException; otherwise the failure count of the whole vessel |
| BatteryReliability.Batteries | source/Batteries.cs:33 | `FindAll` over the part's resources: the increasing positions of exactly the ElectricCharge resources |
| BatteryReliability.BatteriesSameNames | source/Batteries.cs:33 | the batteries found depend only on the resource names, so a failure or repair never changes which resources they are |
| BatteryReliability.ShortCircuited | source/Batteries.cs:42-49 | every ElectricCharge resource is emptied and cut off from flow; every other resource is untouched |
| BatteryReliability.Reconnected | source/Batteries.cs:52-58 | every ElectricCharge resource flows both ways again and keeps its amount; every other resource is untouched |
| BatteryReliability.FailThenRepair | source/Batteries.cs:42-58 | a failure followed by a repair leaves each battery empty and flowing both ways and every other resource as it was: the charge lost is not restored |
| BatteryReliability.ModuleBatteryReliability.constructor | source/ModuleBaseFailure.cs:41-82 | the module as loaded from the cfg: enabled, not yet initialised, not failed, no batteries looked up |
| BatteryReliability.ModuleBatteryReliability.DI_OnStart | source/Batteries.cs:29-39 | in the editor or with no state nothing happens; otherwise the batteries are looked up and a part without one disables the module |
| BatteryReliability.ModuleBatteryReliability.DI_Fail | source/Batteries.cs:42-49 | the part's resources become ShortCircuited; before DI_OnStart has run, the null list throws and nothing changes |
| BatteryReliability.ModuleBatteryReliability.DI_EvaRepair | source/Batteries.cs:52-58 | the part's resources become Reconnected; before DI_OnStart has run, the null list throws and nothing changes |
| BatteryReliability.ModuleBatteryReliability.Fail | source/ModuleBaseFailure.cs:218-252 | a disabled module does nothing; otherwise it is marked failed, the events switch, the message is posted and the batteries short-circuit; an exception in the hook disables the module |
| BatteryReliability.ModuleBatteryReliability.OnStart | source/ModuleBaseFailure.cs:88-154 | a disabled module does nothing; the hook looks up the batteries; in flight a new life starts when the part needs one; outside flight and the editor a part saved as failed short-circuits again |
| BatteryReliability.ModuleBatteryReliability.OnFixedUpdate | source/ModuleBaseFailure.cs:160-213 | nothing happens until an update is due; then the age is the time since the life started, the MTBF takes its decayed value, and a working part that rolls a failure fails |
| BatteryReliability.ModuleBatteryReliability.EvaRepair | source/ModuleBaseFailure.cs:259-323 | a kerbal carrying at least RepairCost spares repairs the part, pays RepairCost and reconnects the batteries; otherwise nothing changes |
| ConfigNodes.ValuesOf | source/DangIt/Runtime.cs:68 | `GetValues(key)`: never more texts than entries |
| ConfigNodes.GetValue | source/FailureModule.cs:157-163 | `GetValue` answers a text exactly when the key is present (null otherwise) |
| ConfigNodes.AddValue | source/DangIt/Settings.cs:35-40 | the text becomes the last one under its key; every other key keeps its texts |
| ConfigNodes.AddValues | source/DangIt/Settings.cs:35-40 | consecutive AddValue calls append the entries in order |
| ConfigNodes.LookupUnique | source/FailureModule.cs:157-163 | among distinct keys each key reads exactly its own text |
| ConfigNodes.ReadBackAt | source/DangIt/Settings.cs:22-27 | in a node with distinct keys, the text at any position is what its key reads |
| ConfigNodes.Zip | source/DangIt/Settings.cs:35-40 | the entries pair each key with the text at its position |
| ConfigNodes.ZipReadsBack | source/DangIt/Settings.cs:22-40 | a node written with distinct keys lists exactly those keys and reads each back as its own text |
| ConfigNodes.NoSuchKey | source/DangIt/Settings.cs:22-27 | a key no entry carries reads nothing |
| ConfigNodes.ReplaceFirstValue | source/FailureModule.cs:177-183 | the first text under the key is replaced and the others kept; a missing key leaves the entries alone; other keys are untouched |
| ConfigNodes.SetValue | source/FailureModule.cs:177-183 | the key then reads the new text; the key keeps its number of texts (or gets one); every other key keeps its texts |
| ConfigNodes.SetValues | source/FailureModule.cs:177-183 | consecutive SetValue calls keep the node's name and children |
| ConfigNodes.SetValuesKeepsOther | source/FailureModule.cs:177-183 | a key none of the calls sets keeps all its texts |
| ConfigNodes.SetValuesReadBack | source/FailureModule.cs:177-183 | after setting distinct keys, each key reads its own text |
| ConfigNodes.NodesNamed | source/DangIt/Runtime.cs:67 | the children under a name, all carrying that name, in order |
| ConfigNodes.GetNode | source/DangIt/Runtime/DangIt.cs:104-105 | `GetNode` answers a child exactly when one carries the name, and the child carries it |
| ConfigNodes.NodesNamedEmpty | source/DangIt/Runtime/DangIt.cs:104-105 | no child is found under a name exactly when no child carries it |
| ConfigNodes.HasNode | source/DangIt/Perks/Generator.cs:21 | `HasNode` holds exactly when some child carries the name |
| ConfigNodes.AddNode | source/DangIt/Runtime/DangIt.cs:126 | the child becomes the last one under its name; every other name keeps its children; the values stay |
| ConfigNodes.ReplaceFirstNode | source/DangIt/Runtime/DangIt.cs:122 | the first child under the name is replaced; a name with no child leaves the children alone; other names are untouched |
| ConfigNodes.SetNode | source/DangIt/Runtime/DangIt.cs:122 | with a child under the name, GetNode then answers the new contents under that name; the number of children per name never changes |
| ControlSurfaceReliability.ModuleControlSurface.constructor | source/ControlSurface.cs:16-18 | a control surface with the given axes, switched on |
| ControlSurfaceReliability.ModuleControlSurfaceReliability.constructor | source/ControlSurface.cs:27-28 | the module as loaded from the cfg: enabled, not yet initialised, no surface yet, the saved axes all unset |
| ControlSurfaceReliability.ModuleControlSurfaceReliability.DI_OnStart | source/ControlSurface.cs:37-42 | in the editor or with no state nothing happens; otherwise the part's first control surface is taken, and a part without one throws from `First()` |
| ControlSurfaceReliability.ModuleControlSurfaceReliability.DI_Fail | source/ControlSurface.cs:45-60 | the player's axes are saved, then the surface ignores all three axes and is switched off; without a surface it throws and changes nothing |
| ControlSurfaceReliability.ModuleControlSurfaceReliability.DI_EvaRepair | source/ControlSurface.cs:64-73 | the surface is switched on and gets the saved axes back; without a surface it throws |
| ControlSurfaceReliability.ModuleControlSurfaceReliability.Fail | source/ModuleBaseFailure.cs:218-252 | a disabled module does nothing; otherwise it is marked failed, the message is posted and the surface is stuck; a missing surface disables the module |
| ControlSurfaceReliability.ModuleControlSurfaceReliability.OnStart | source/ModuleBaseFailure.cs:88-154 | a disabled module does nothing; a part without a surface disables the module; in flight a new life starts when needed; outside flight and the editor a surface saved as failed is stuck again |
| ControlSurfaceReliability.ModuleControlSurfaceReliability.OnFixedUpdate | source/ModuleBaseFailure.cs:160-213 | nothing happens until an update is due; then the age is the time since the life started and a working surface that rolls a failure is stuck |
| ControlSurfaceReliability.ModuleControlSurfaceReliability.EvaRepair | source/ModuleBaseFailure.cs:259-323 | with enough spares the module is repaired, RepairCost is paid and the surface gets its saved axes back; otherwise nothing changes |
| Controller.BlacklistLines | source/DangIt/Runtime/DangIt.cs:34-38 | the names read from the file are non-empty and start with neither `//` nor `#` |
| Controller.BlacklistLinesExactly | source/DangIt/Runtime/DangIt.cs:34-38 | a name is read exactly when some line, trimmed, is that name and is neither blank nor a comment |
| Controller.BlacklistCache.constructor | source/DangIt/Runtime/DangIt.cs:18 | the blacklist starts unbuilt |
| Controller.BlacklistCache.LeakBlackList | source/DangIt/Runtime/DangIt.cs:22-54 | a built blacklist is returned unchanged; otherwise it becomes the three defaults plus every name the file lists; a file that cannot be read leaves the defaults and rethrows |
| Controller.AvailablePart.constructor | source/DangIt/Runtime/DangIt.cs:156 | a loaded part with its module infos |
| Controller.LastInfoIndex | source/DangIt/Runtime/DangIt.cs:158-163 | the position of the last "Reliability Info" entry, or -1 when there is none |
| Controller.OthersConcat | source/DangIt/Runtime/DangIt.cs:159-163 | the other entries and the count of "Reliability Info" entries distribute over concatenation |
| Controller.NoInfoIndex | source/DangIt/Runtime/DangIt.cs:158-163 | no "Reliability Info" entry is found exactly when the part has none |
| Controller.NoInfoCount | source/DangIt/Runtime/DangIt.cs:158-163 | a part without "Reliability Info" entries counts none and keeps all its entries |
| Controller.RemovedInfo | source/DangIt/Runtime/DangIt.cs:165-167 | removing one "Reliability Info" entry keeps every other entry and lowers the count by one |
| Controller.AddedInfo | source/DangIt/Runtime/DangIt.cs:169-176 | appending a "Reliability Info" entry keeps every other entry and raises the count by one |
| Controller.RefreshedChanges | source/DangIt/Runtime/DangIt.cs:156-177 | the refresh keeps every other entry; with the mod off it removes one "Reliability Info" entry; with it on it adds one only when there is none and the part has a reliability module, and otherwise changes nothing |
| Controller.RefreshedIdempotent | source/DangIt/Runtime/DangIt.cs:156-177 | refreshing twice is refreshing once, when the mod is on or the part holds at most one entry |
| Controller.RefreshedTwiceDisabled | source/DangIt/Runtime/DangIt.cs:158-167 | with the mod off and two entries, each refresh removes only the last one |
| Controller.Runtime.constructor | source/DangIt/Runtime/DangIt.cs:87-97 | no settings yet, and not ready |
| Controller.Runtime.SetCurrentSettings | source/DangIt/Runtime/DangIt.cs:64-72 | the CurrentSettings setter stores the value |
| Controller.Runtime.OnLoad | source/DangIt/Runtime/DangIt.cs:102-113 | the settings are read from the SETTINGS child when there is one and are the defaults otherwise; the runtime is ready |
| Controller.Runtime.OnSave | source/DangIt/Runtime/DangIt.cs:116-128 | without settings it throws; otherwise the SETTINGS child then holds the written settings, an existing one replaced in place and a missing one added; every other child and value is untouched |
| Controller.Runtime.RefreshPartInfo | source/DangIt/Runtime/DangIt.cs:152-183 | every part with modules gets Refreshed infos, and the others keep theirs; without settings the NullReferenceException is caught and nothing changes |
| Convert.BoolTextRoundTrip | source/FailureModule.cs:157 | `bool.ToString()` parses back to the same bool |
| Convert.TrueRoundTrip | source/DangIt/Runtime/Static.cs:118 | "True" parses to true |
| Convert.FalseRoundTrip | source/DangIt/Runtime/Static.cs:118 | "False" parses to false |
| Convert.IntTextRoundTrip | source/DangIt/Runtime/Static.cs:118 | an `int`'s decimal text parses back to it |
| Convert.InfinityRoundTrip | source/FailureModule.cs:159 | the text of +Infinity parses back to +Infinity |
| Convert.Parse | source/DangIt/Runtime/Static.cs:114-124 | a null or empty text gives the default; a text the conversion rejects gives the default; otherwise the converted value |
| Convert.ParseWrittenBool | source/DangIt/Runtime/Static.cs:114-124 | Parse of a written bool gives that bool, whatever the default |
| Convert.ParseWrittenInt | source/DangIt/Runtime/Static.cs:114-124 | Parse of a written int gives that int, whatever the default |
| Convert.ParseWrittenWholeReal | source/DangIt/Runtime/Static.cs:114-124 | Parse of a written whole number gives that number, whatever the default |
| Convert.WholeTextNotInfinity | source/FailureModule.cs:159 | no whole number is written as "Infinity" |
| Convert.ParseWrittenWholeFloat | source/FailureModule.cs:159-162 | Parse of a written whole float gives that float |
| Convert.ParseWrittenInfinity | source/FailureModule.cs:159-162 | Parse of a written +Infinity gives +Infinity |
| CrewFilesGenerator.LevelFromDraw | source/CrewFiles/PerkGenerator.cs:30 | `Random.Range(1, 3)` on ints gives level 1 or 2 |
| CrewFilesGenerator.MustRun | source/CrewFiles/PerkGenerator.cs:14-17 | the generator runs exactly when no child of the kerbal's data is a DANGIT_PERKS node |
| CrewFilesGenerator.PerkNodeReads | source/CrewFiles/PerkGenerator.cs:28-30 | a generated PERK node holds exactly one name and one level, the level as its decimal text |
| CrewFilesGenerator.LevelText | source/CrewFiles/PerkGenerator.cs:30 | the level text is "1" or "2" |
| CrewFilesGenerator.Generate | source/CrewFiles/PerkGenerator.cs:20-43 | a DANGIT_PERKS node with no values and one PERK child per specialty whose roll beat the kerbal's stupidity |
| CrewFilesGenerator.GeneratedPerks | source/CrewFiles/PerkGenerator.cs:26-40 | every child is a PERK of level "1" or "2"; with two children the mechanic comes before the electrician |
| DirectSparesContainer.FillConserves | source/ModuleSparesContainer.cs:78-105 | with a container holding spares, "Take spares" moves one amount out of the container into the suit (a suit without spares starting from 0); from in-range amounts, at most Increment moves, the suit stays within MaxEvaAmount and the container stays non-negative |
| DirectSparesContainer.FillTouchesOnlySpares | source/ModuleSparesContainer.cs:78-105 | only the two SpareParts resources change; a suit without them gets one appended with capacity MaxEvaAmount; a container without them throws and keeps its resources |
| DirectSparesContainer.EmptyConserves | source/ModuleSparesContainer.cs:58-74 | with spares on both sides, "Deposit spares" moves one amount from the suit into the container, never past the container's capacity and, from in-range amounts, never below 0 in the suit |
| DirectSparesContainer.EmptyWithoutSpares | source/ModuleSparesContainer.cs:64-65 | a side without spares throws before anything changes |
| DirectSparesContainer.ModuleSparesContainer.constructor | source/ModuleSparesContainer.cs:14 | no boarding handler registered and "Deposit spares" hidden |
| DirectSparesContainer.ModuleSparesContainer.FillEvaSuit | source/ModuleSparesContainer.cs:78-105 | the two parts take the resources of Fill, in place |
| DirectSparesContainer.ModuleSparesContainer.EmptyEvaSuit | source/ModuleSparesContainer.cs:58-74 | the two parts take the resources of Empty, in place |
| DirectSparesContainer.ModuleSparesContainer.TakeParts | source/ModuleSparesContainer.cs:18-36 | without an EVA kerbal nothing is moved; otherwise the suit is filled; after a fill that did not throw, "Deposit spares" shows and exactly one boarding handler is registered |
| DirectSparesContainer.ModuleSparesContainer.DepositParts | source/ModuleSparesContainer.cs:41-53 | without an EVA kerbal nothing is moved; otherwise the suit is emptied; after that, "Deposit spares" hides and no boarding handler is left |
| DirectSparesContainer.ModuleSparesContainer.OnCrewBoardVessel | source/ModuleSparesContainer.cs:111-121 | a kerbal without spares changes nothing; otherwise the suit is emptied into the boarded part |
| Engines.EngineModule.constructor | source/DangIt/Utilities/EnginesManager.cs:15-16 | an engine module with the given state |
| Engines.EnginesOfKind | source/DangIt/Utilities/EnginesManager.cs:24-25 | `OfType<…>()`: every engine of the kind, and only those, taken from the part's modules |
| Engines.MaxThrottle | source/DangIt/Utilities/EnginesManager.cs:68-69 | the maximum: no engine's throttle exceeds it, and some engine has it |
| Engines.EngineIsActive | source/DangIt/Utilities/EnginesManager.cs:44-56 | an active engine has a throttle above zero; a disabled or unignited one is never active |
| Engines.EngineManager.constructor | source/DangIt/Utilities/EnginesManager.cs:22-26 | the manager holds the part's ModuleEngines and its ModuleEnginesFX |
| Engines.EngineManager.IsActive | source/DangIt/Utilities/EnginesManager.cs:31-38 | the part is active exactly when one of its managed engines, of either kind, is active; then its current throttle is above zero, and with every engine disabled it is not active |
| Engines.EngineManager.CurrentThrottle | source/DangIt/Utilities/EnginesManager.cs:62-73 | 0 without engines; otherwise no managed engine's throttle exceeds it |
| Engines.EngineManager.Disable | source/DangIt/Utilities/EnginesManager.cs:80-109 | every managed engine is disabled, so none is active; ignition and throttle are not touched |
| Engines.EngineManager.Enable | source/DangIt/Utilities/EnginesManager.cs:89-119 | every managed engine is enabled; ignition and throttle are not touched |
| FailureModules.MissingKeysGiveInitial | source/FailureModule.cs:157-163 | a node without any of the seven keys loads the field initialisers |
| FailureModules.WriteState | source/FailureModule.cs:177-183 | the node keeps its name and children |
| FailureModules.WriteStateKeepsOther | source/FailureModule.cs:177-183 | keys other than the seven keep their texts |
| FailureModules.StateKeysDistinct | source/FailureModule.cs:177-183 | the seven keys are distinct |
| FailureModules.ReadsBack | source/FailureModule.cs:177-183 | after the save, each of the seven keys reads its own text |
| FailureModules.ParseWrittenWholeFloatField | source/FailureModule.cs:158-162 | a whole or infinite float field parses back to itself, whatever the default |
| FailureModules.ReadTexts | source/FailureModule.cs:157-163 | a node holding the seven written texts loads both flags back, and the whole state when its floats are whole |
| FailureModules.SaveLoadRoundTrip | source/FailureModule.cs:150-189 | OnLoad after OnSave gives back HasInitted and HasFailed, and every field when the floats are whole |
| FailureModules.FailureModule.constructor | source/FailureModule.cs:46-82 | the field initialisers: not initted, never reset, not failed; both events active |
| FailureModules.FailureModule.Reset | source/FailureModule.cs:111-146 | a new life from `now`: age 0, next reset one second later, the MTBF and lifetime from the cfg, not failed, initted; EvaRepair hidden |
| FailureModules.FailureModule.OnLoad | source/FailureModule.cs:150-171 | the seven fields take the values ReadState reads from the node; the events are untouched |
| FailureModules.FailureModule.OnSave | source/FailureModule.cs:175-189 | the saved node keeps its name, children and other keys, and reads back the module's two flags |
| FailureModules.FailureModule.SetFailureState | source/FailureModule.cs:287-294 | only HasFailed changes among the fields; Fail shows only when not failed in a DEBUG build, EvaRepair shows exactly when failed |
| FailureModules.FailureModule.Fail | source/FailureModule.cs:267-283 | the module is failed, Fail hides and EvaRepair shows; the message is posted unless the module is silent |
| FailureModules.FailureModule.OnStart | source/FailureModule.cs:194-221 | outside flight nothing changes; in flight a start before the last reset resets the module, and a module saved as failed fails again |
| FailureModules.FailureModule.FixedUpdate | source/FailureModule.cs:225-262 | a module not yet initted does nothing; an inactive part only moves LastFixedUpdate; otherwise the age grows by the elapsed time, the MTBF decays and a failure roll fails a working module; the age never shrinks |
| FailureModules.FailureModule.EvaRepair | source/FailureModule.cs:299-355 | without an EVA the "couldn't find an active EVA" error is broadcast and nothing changes; with fewer than RepairCost spares "You need N spares" is broadcast and nothing changes; otherwise the module is repaired, the kerbal's spares drop by the discounted cost as RequestResource takes it, and the repair message is broadcast, followed by the spares saved when the discount is positive |
| FlightLogs.FlightLogger.constructor | source/DangIt/Runtime/Static.cs:58-67 | an empty event log and the given mission time |
| Injector.Start | source/DangIt/Runtime/ScenarioInjector.cs:16-38 | afterwards the game has a CDangIt record: a new one targets editor, flight, space centre and tracking station; an existing one gains those scenes and keeps its own; no other record changes |
| Injector.StartTargets | source/DangIt/Runtime/ScenarioInjector.cs:29-46 | the scenes only grow, all four are targeted, the SPH is never added, no scene is duplicated, and a second Start changes nothing |
| Inspections.InspectedModule.constructor | source/DangIt/Maintenance/InspectionModule.cs:51-53 | a failure module as the inspection reads it |
| Inspections.FailureModulesOf | source/DangIt/Maintenance/InspectionModule.cs:41 | `OfType<FailureModule>().ToList()`: never more modules than the part has |
| Inspections.FailureModulesOfMembers | source/DangIt/Maintenance/InspectionModule.cs:41 | the list holds exactly the part's failure modules |
| Inspections.NoFailureModules | source/DangIt/Maintenance/InspectionModule.cs:45 | the list is empty exactly when no module of the part is a failure module |
| Inspections.EntryLines | source/DangIt/Maintenance/InspectionModule.cs:52-54 | a module's entry takes three lines in the newest layout and one line in the older one |
| Inspections.EntryInPlace | source/DangIt/Maintenance/InspectionModule.cs:49-55 | each module's lines follow those of the modules before it, and later modules only append |
| Inspections.EntriesLength | source/DangIt/Maintenance/InspectionModule.cs:49-55 | n modules give n times the entry width in lines |
| Inspections.FirstLineHasColon | source/DangIt/Maintenance/InspectionModule.cs:52 | every entry's first line holds a colon |
| Inspections.PlaceholderIffNoModules | source/DangIt/Maintenance/InspectionModule.cs:45-56 | the report is the placeholder line exactly when the part has no failure module |
| Inspections.PlaceholderHasNoColon | source/DangIt/Maintenance/InspectionModule.cs:46 | the placeholder holds no colon |
| Inspections.TextHasColon | source/DangIt/Maintenance/InspectionModule.cs:58-59 | a colon on the first line is a colon in the joined text |
| Inspections.InspectDetailed | source/DangIt/Maintenance/InspectionModule.cs:37-63 | every failure module is stamped with the inspection time; the report is posted under "Inspection results" even when messages are muted; it is the placeholder exactly when the part has no failure module |
| Inspections.InspectBrief | source/Maintenance/InspectionModule.cs:12-28 | every failure module is stamped with the inspection time; one line per module, or the placeholder exactly when there is none, is shown for five seconds |
| IppoInjector.Start | source/Runtime/ScenarioInjector.cs:20-44 | afterwards the game has a DangIt record: a new one targets editor, flight, space centre, SPH and tracking station; an existing one gains those scenes and keeps its own; no other record changes |
| IppoInjector.StartTargets | source/Runtime/ScenarioInjector.cs:34-53 | the scenes only grow, all five are targeted, no scene is duplicated, and a second Start changes nothing |
| IppoRuntime.NotificationsNode | source/Runtime/DangIt.cs:86-92 | the default NOTIFICATIONS node turns messages, glow and sounds on, each written as "True" |
| IppoRuntime.EvaRepairDistance | source/Runtime/DangIt.cs:15-23 | the EVA repair range is 20 m in a debug build and 1.5 m otherwise |
| IppoRuntime.EnableGuiFailure | source/Runtime/DangIt.cs:15-23 | the failure button is shown in both builds |
| IppoRuntime.BlacklistNode | source/Runtime/DangIt.cs:94-100 | the default BLACKLIST node ignores ElectricCharge, SolidFuel and SpareParts, in that order |
| IppoRuntime.CreateDefaultSettings | source/Runtime/DangIt.cs:82-104 | the default settings file is a SETTINGS node whose NOTIFICATIONS and BLACKLIST children are the defaults above |
| IppoRuntime.LoadGlobal | source/Runtime/DangIt.cs:64-73 | loading fails with a null reference exactly when the file has no BLACKLIST node; otherwise the blacklist is its ignore values in order and the notification settings are read from the NOTIFICATIONS node |
| IppoRuntime.DefaultsLoad | source/Runtime/DangIt.cs:54-104 | the defaults written on the first run load back as the default blacklist and notifications all on |
| IppoRuntime.Runtime.constructor | source/Runtime/DangIt.cs:29-36 | holds the given blacklist and notification settings |
| IppoRuntime.Runtime.Load | source/Runtime/DangIt.cs:49-75 | the runtime reads the settings file when there is one and the defaults otherwise; it fails exactly when loading fails, and a first run always succeeds with the defaults |
| IppoRuntime.Runtime.FromNode | source/Runtime/DangIt.cs:64-73 | a runtime built from a settings node carries what LoadGlobal reads from it, or its error |
| IppoSettings.ReadNode | source/Runtime/Settings.cs:22-37 | a missing node gives the defaults: no manual failures, no free repairs, distance 1, notifications on |
| IppoSettings.MissingKeysGiveDefaults | source/Runtime/Settings.cs:25-37 | a node with none of the keys also reads as the defaults |
| IppoSettings.WriteNode | source/Runtime/Settings.cs:40-53 | the settings are written as a SETTINGS node without children |
| IppoSettings.SettingsKeysDistinct | source/Runtime/Settings.cs:44-50 | the six keys written are pairwise distinct |
| IppoSettings.ReadsBack | source/Runtime/Settings.cs:40-53 | the written node holds exactly the six keys in order, each with the text of its field |
| IppoSettings.ReadTexts | source/Runtime/Settings.cs:25-37 | a node holding those texts reads back every field; the distance exactly when it is a whole number |
| IppoSettings.ReadWriteRoundTrip | source/Runtime/Settings.cs:25-53 | writing then reading the settings gives them back (the distance exactly when it is whole) |
| IppoStatic.FlightLog | source/Runtime/Static.cs:27-44 | the event log gains one entry: the mission time stamp with "] " and the message; the clock does not move |
| LegacyRuntime.Start | source/DangIt/Runtime.cs:16-37 | afterwards the game has a DangIt record: a new one targets editor, flight and SPH; an existing one gains those scenes and keeps its own; no other record changes |
| LegacyRuntime.StartTargets | source/DangIt/Runtime.cs:24-35 | the scenes only grow, all three are targeted, no scene is duplicated, and a second Start changes nothing |
| LegacyRuntime.BlacklistNode | source/DangIt/Runtime.cs:95-98 | the BLACKLIST node built on the first run ignores ElectricCharge, SolidFuel and the spares resource |
| LegacyRuntime.CreateDefaultSettings | source/DangIt/Runtime.cs:91-106 | as written, the default DANGIT node has the SETTINGS child but no BLACKLIST child, as the node is added to itself instead |
| LegacyRuntime.CreateDefaultSettingsFixed | source/DangIt/Runtime.cs:91-106 | with the blacklist node attached, the defaults hold the BLACKLIST node and the default SETTINGS node |
| LegacyRuntime.LoadGlobal | source/DangIt/Runtime.cs:57-71 | loading fails with a null reference exactly when there is no BLACKLIST node; otherwise the blacklist is its ignore values and the settings are read from SETTINGS |
| LegacyRuntime.AsWrittenFirstRunFails | source/DangIt/Runtime.cs:53-106 | on a first run (no settings file) the defaults as written fail to load |
| LegacyRuntime.FixedFirstRun | source/DangIt/Runtime.cs:53-106 | with the fix, a first run loads the default blacklist and default settings |
| LegacyRuntime.Runtime.constructor | source/DangIt/Runtime.cs:81-84 | a new runtime has neither blacklist nor settings before OnLoad |
| LegacyRuntime.Runtime.LoadFrom | source/DangIt/Runtime.cs:66-71 | the blacklist is reset and refilled from the ignore values in order, then the settings are read; without a BLACKLIST node the null reference is rethrown with the blacklist empty and the settings unchanged |
| LegacyRuntime.Runtime.OnLoad | source/DangIt/Runtime.cs:53-78 | as written: on success the blacklist and settings are those loaded; on failure the error is rethrown, the blacklist is left empty and the settings unchanged; a first run, with no settings file, always fails with a null reference |
| LegacyRuntime.Runtime.OnLoadFixed | source/DangIt/Runtime.cs:53-78 | corrected: the same load, but a first run succeeds with the default blacklist and default settings |
| LegacySettings.ReadNode | source/DangIt/Settings.cs:17-29 | a missing node gives the defaults: notifications on, repair distance 1, no manual failures |
| LegacySettings.MissingKeysGiveDefaults | source/DangIt/Settings.cs:18-29 | a node with none of the keys also reads as the defaults |
| LegacySettings.WriteNode | source/DangIt/Settings.cs:31-43 | the settings are written as a SETTINGS node without children |
| LegacySettings.SettingsKeysDistinct | source/DangIt/Settings.cs:35-40 | the five keys written are pairwise distinct |
| LegacySettings.ReadsBack | source/DangIt/Settings.cs:31-43 | the written node holds exactly the five keys in order, each with the text of its field |
| LegacySettings.ReadTexts | source/DangIt/Settings.cs:18-29 | a node holding those texts reads back every field; the repair distance exactly when it is whole |
| LegacySettings.ReadWriteRoundTrip | source/DangIt/Settings.cs:18-43 | writing then reading the settings gives them back (the repair distance exactly when it is whole) |
| LegacyStatic.Broadcast | source/DangIt.cs:39-42 | every message is shown |
| LegacyStatic.EvaRepairDistance | source/DangIt.cs:24-29 | the EVA repair range is 20 m in a debug build and 0.5 m otherwise |
| LegacyStatic.EnableGuiFailure | source/DangIt.cs:24-29 | the failure button is shown exactly in a debug build |
| LegacyStatic.BroadcastIsUnmuted | source/DangIt.cs:39-42 | the oldest broadcast behaves like the newer one called with "always show", whatever the Messages setting |
| LegacyStatic.ResetGlow | source/DangIt.cs:67-92 | the part tree comes back re-highlighted under the ModuleBaseFailure rule: each part is red exactly when one of its ModuleBaseFailures has failed |
| LegacyStatic.ResetShipGlow | source/DangIt.cs:56-62 | a vessel without a root part is an error; otherwise its whole tree is re-highlighted and nothing else changes |
| NotificationSettingsModel.ReadNode | source/Runtime/NotificationSettings.cs:14-22 | a missing node turns every notification on |
| NotificationSettingsModel.OffOnlyWhenWrittenFalse | source/Runtime/NotificationSettings.cs:16-21 | a notification is off only when the node exists and its key reads as false |
| PartTrees.FailureModulesOf | source/DangIt/Runtime/Static.cs:163-170 | the modules kept are exactly the part's FailureModules |
| PartTrees.BaseFailuresOf | source/DangIt.cs:73-80 | the modules kept are exactly the part's ModuleBaseFailures |
| PartTrees.GlowedMatches | source/DangIt/Runtime/Static.cs:155-183 | after the glow reset every part of the tree carries the highlight its modules call for, and the tree is otherwise the same |
| PartTrees.MatchingIsGlowed | source/DangIt/Runtime/Static.cs:155-183 | any tree with the same parts whose every highlight follows the rule is the reset tree: the reset is fully determined |
| PartTrees.GlowedIdempotent | source/DangIt/Runtime/Static.cs:143-147 | resetting the glow twice is the same as once |
| PartTrees.GlowOffNoneRed | source/DangIt/Runtime/Static.cs:160-162 | with the Glow setting off no part is left red |
| BaseFailures.Pick | source/Tanks.cs:103 | a random index drawn over a non-empty list lies inside it; over an empty list it is 0 |
| BaseFailures.PickReachesAll | source/Tanks.cs:103 | every index of the list can be drawn |
| BaseFailures.SpendSpares | source/ModuleBaseFailure.cs:283-297 | the repair takes exactly its cost from the kerbal's spares and leaves every other resource alone; an affordable repair keeps the spares within their capacity |
| BaseFailures.ModuleBaseFailure.constructor | source/ModuleBaseFailure.cs:41-82 | the module starts enabled, not yet initialised, with MTBF 1000 hours, life time 3600 hours, age 0, not failed, with the failure event active and the repair event inactive |
| BaseFailures.ModuleBaseFailure.Start | source/ModuleBaseFailure.cs:88-154 | outside flight nothing changes and a failed part is failed again outside the editor; in flight a part not yet initialised, or launched before its recorded start, begins a new life at the current time and its events keep their state; otherwise nothing changes |
| BaseFailures.ModuleBaseFailure.Tick | source/ModuleBaseFailure.cs:160-213 | a failure roll is due exactly when the update interval has passed and the part is active or ageing does not depend on activity; a due roll decays the MTBF and advances the age, by the elapsed time or from the timer start; the age never decreases |
| BaseFailures.ModuleBaseFailure.MarkFailed | source/ModuleBaseFailure.cs:218-252 | a failure marks the module failed, hides the failure event and offers the EVA repair, and changes nothing else |
| BaseFailures.ModuleBaseFailure.Repair | source/ModuleBaseFailure.cs:259-323 | without a kerbal on EVA nothing changes; the repair succeeds exactly when the kerbal carries at least the repair cost in spares, which it then pays; a success clears the failure; a refusal changes nothing and names the spares needed |
| Perks.ToString | source/DangIt/Perks/Perk.cs:23-26 | the text splits on colons into exactly the specialty name and the level name |
| Perks.FromString | source/DangIt/Perks/Perk.cs:29-43 | a text with fewer than two colon-separated parts is an error; a perk read is the specialty and level the first two parts name |
| Perks.FromStringToString | source/DangIt/Perks/Perk.cs:23-43 | every perk written as text reads back as itself |
| Perks.FromStringCollapsesSeparators | source/DangIt/Perks/Perk.cs:35 | empty parts are dropped, so a doubled colon reads like a single one |
| Perks.FromStringNumericLevel | source/DangIt/Perks/Perk.cs:31-39 | a level given by its number reads like the level's name |
| Perks.FromStringSingleName | source/DangIt/Perks/Perk.cs:35-39 | a text without a colon is an error (the level index is out of range) |
| Perks.Meets | source/DangIt/Perks/Perk.cs:46-50 | a perk meets a requirement only of its own specialty; every perk meets the lowest level of its specialty, and every requirement equal to it |
| Perks.MeetsAny | source/DangIt/Perks/Perk.cs:52-55 | a list meets a requirement exactly when one of its perks does; a list holding the requirement itself meets it |
| Perks.MeetsAll | source/DangIt/Perks/Perk.cs:57-60 | a list meets a requirement list exactly when it meets each requirement; a list holding every requirement meets them all |
| Perks.MeetsLowerLevels | source/DangIt/Perks/Perk.cs:46-50 | a perk meets every requirement of its specialty at its level or below, itself included |
| Perks.MeetsEmpty | source/DangIt/Perks/Perk.cs:52-60 | no perk list meets a requirement when empty, every list meets no requirements, and one requirement is met by the list exactly when some perk meets it |
| Perks.MeetsAllMonotone | source/DangIt/Perks/Perk.cs:46-60 | raising the level of a perk never makes a kerbal fail requirements it met |
| Perks.MeetsAllMorePerks | source/DangIt/Perks/Perk.cs:52-60 | having more perks never makes a kerbal fail requirements it met |
| Perks.MeetsAllConcat | source/DangIt/Perks/Perk.cs:57-60 | two lists of requirements are met together exactly when each is met |
| PerkGenerator.Stupidity | source/DangIt/Perks/Generator.cs:33 | a missing or unreadable stupidity counts as 0.5 |
| PerkGenerator.MustRun | source/DangIt/Perks/Generator.cs:19-22 | the generator runs exactly when no child of the kerbal's data is a DANGIT_PERKS node |
| PerkGenerator.Generate | source/DangIt/Perks/Generator.cs:29-48 | the generated node holds one "perk" text per specialty, in declaration order, each the text of that specialty at its drawn level, and no children |
| PerkNodes.ToNode | source/Perks/Perk.cs:48-56 | a perk is written as a PERK node with one specialty and one level value, holding their names |
| PerkNodes.FromNode | source/Perks/Perk.cs:38-45 | a node missing either key is the error "Invalid perk node!"; a perk read is what the two values name |
| PerkNodes.FromNodeToNode | source/Perks/Perk.cs:38-56 | every perk written as a node reads back as itself |
| PerkNodes.RequirementsSurviveNodeRoundTrip | source/Perks/Perk.cs:38-73 | replacing a perk by its node round trip does not change which requirements a kerbal meets |
| PerkNodeGenerator.Generate | source/Perks/Generator.cs:20-36 | the generated node has no values and one child per specialty, in declaration order, each reading back as that specialty at its drawn level |
| PerkNodeGenerator.MustRun | source/Perks/Generator.cs:14-17 | the generator runs exactly when no child of the kerbal's data is a DANGIT_PERKS node |
| PerkTypes.LevelValue | source/Perks/Perk.cs:14-20 | every skill level is a number from 0 to 3 |
| PerkTypes.LevelOf | source/Perks/Perk.cs:14-20 | the numbers 0 to 3, and only those, name a level, and that level has that number |
| PerkTypes.ParseSpecialty | source/DangIt/Perks/Perk.cs:38 | a text names a specialty exactly when it is a specialty name or the digits of its number; the specialty read is the one named |
| PerkTypes.ParseLevel | source/DangIt/Perks/Perk.cs:39 | a text names a level exactly when it is a level name or the digits of a number up to 3; the level read is the one named |
| PerkTypes.SpecialtyNameRoundTrip | source/Perks/Perk.cs:8-12 | every specialty's name reads back as that specialty |
| PerkTypes.LevelNameRoundTrip | source/Perks/Perk.cs:14-20 | every level's name reads back as that level |
| PerkTypes.LevelNumberRoundTrip | source/Perks/Perk.cs:14-20 | every level's number reads back as that level |
| PerkTypes.SpecialtyName | source/Perks/Perk.cs:8-12 | no specialty name is empty, holds the colon separator or starts with a digit |
| PerkTypes.LevelName | source/Perks/Perk.cs:14-20 | no level name is empty, holds the colon separator or starts with a digit |
| PerksExtensions.PerkTexts | source/DangIt/Perks/PerksExtensions.cs:21-22 | one text per perk |
| PerksExtensions.PerksNode | source/DangIt/Perks/PerksExtensions.cs:17-25 | the node is named as the generator's, has no children, and its "perk" values are the perks' texts in order |
| PerksExtensions.ToNode | source/DangIt/Perks/PerksExtensions.cs:17-25 | the loop builds exactly PerksNode |
| PerksExtensions.DecodeAll | source/DangIt/Perks/PerksExtensions.cs:35-36 | a successful decoding gives one perk per text |
| PerksExtensions.DecodeAllMeaning | source/DangIt/Perks/PerksExtensions.cs:31-39 | on success each perk is what its text reads as; a failure is the error of some text |
| PerksExtensions.ToPerks | source/DangIt/Perks/PerksExtensions.cs:31-39 | the loop returns exactly the decoding of the node's "perk" values, stopping at the first error |
| PerksExtensions.DecodeStopsAtError | source/DangIt/Perks/PerksExtensions.cs:35-36 | once a text fails, the texts after it change nothing |
| PerksExtensions.ToPerksToNode | source/DangIt/Perks/PerksExtensions.cs:17-39 | a perk list written to a node reads back as itself |
| PerksExtensions.DecodeTexts | source/DangIt/Perks/PerksExtensions.cs:21-36 | the texts of a perk list decode to the list |
| PerksExtensions.GeneratedPerksDecode | source/DangIt/Perks/Generator.cs:37-45 | a node produced by the generator reads back as one perk per specialty, mechanic then electrician, at the drawn levels |
| PerksExtensions.RequirementsFor | source/DangIt/Perks/PerksExtensions.cs:57 | the requirements kept are exactly those of the given specialty |
| PerksExtensions.SingleOrDefault | source/DangIt/Perks/PerksExtensions.cs:57 | succeeds exactly when there is at most one match, and then gives that match or none |
| PerksExtensions.MinFold | source/DangIt/Perks/PerksExtensions.cs:53-65 | the running minimum of level differences stays between -3 and 3 |
| PerksExtensions.MaxLevel | source/DangIt/Perks/PerksExtensions.cs:50 | the result is the highest level of the perks: no perk is above it and one reaches it |
| PerksExtensions.MinDistance | source/DangIt/Perks/PerksExtensions.cs:47-67 | the loop returns exactly MinDistanceOf: the highest level without requirements (an error for no perks), else the running minimum, stopping at a specialty with two requirements |
| PerksExtensions.MinFoldStopsAtError | source/DangIt/Perks/PerksExtensions.cs:55-57 | once a perk's requirements are ambiguous, later perks change nothing |
| PerksExtensions.UniqueRequirementsFor | source/DangIt/Perks/PerksExtensions.cs:57 | with at most one requirement per specialty, each lookup finds at most one |
| PerksExtensions.MinDistanceBounds | source/DangIt/Perks/PerksExtensions.cs:47-67 | with requirements of distinct specialties the distance is defined, at most every matched difference, and negative exactly when some perk falls short of its requirement |
| PerksExtensions.MinFoldBounds | source/DangIt/Perks/PerksExtensions.cs:53-65 | with distinct specialties the running minimum is defined and at most every matched difference |
| PerksExtensions.MinFoldNegative | source/DangIt/Perks/PerksExtensions.cs:53-65 | with distinct specialties the running minimum is negative exactly when some perk does not meet the requirement of its specialty |
| PerksExtensions.MinDistanceNoRequirements | source/DangIt/Perks/PerksExtensions.cs:49-50 | without requirements the distance is the highest level among the perks |
| PerksExtensions.MinDistanceDuplicateRequirement | source/DangIt/Perks/PerksExtensions.cs:57 | two requirements of a perk's specialty make the distance an error |
| ReliabilityInfo.RoundHalfEven | source/DangIt/Maintenance/ModuleReliabilityInfo.cs:35 | the result is the nearest whole number, and an exact half goes to the even neighbour, as Math.Round does |
| ReliabilityInfo.EndOfLife | source/DangIt/Maintenance/ModuleReliabilityInfo.cs:35 | the end of life is 0 when its logarithmic term is not positive, and that term rounded otherwise |
| ReliabilityInfo.BlockShape | source/DangIt/Maintenance/ModuleReliabilityInfo.cs:37-56 | a module's block starts with its screen name, ends with a blank line, and has six fixed lines plus one for each optional line present |
| ReliabilityInfo.ExtraLineIff | source/DangIt/Maintenance/ModuleReliabilityInfo.cs:44-46 | the extra editor line is shown exactly when the module has extra info |
| ReliabilityInfo.ServicingLineIff | source/DangIt/Maintenance/ModuleReliabilityInfo.cs:48-54 | the servicing requirement line is shown exactly when the module names an experience requirement |
| ReliabilityInfo.Shown | source/DangIt/Maintenance/ModuleReliabilityInfo.cs:18-24 | filtering keeps at most the modules given |
| ReliabilityInfo.ShownMembers | source/DangIt/Maintenance/ModuleReliabilityInfo.cs:20-24 | a module is listed exactly when it is on the part and wants to show its info in the editor |
| ReliabilityInfo.NothingShown | source/DangIt/Maintenance/ModuleReliabilityInfo.cs:18-26 | nothing is listed exactly when no module wants to show its info |
| ReliabilityInfo.BlockList | source/DangIt/Maintenance/ModuleReliabilityInfo.cs:32-57 | one block per listed module |
| ReliabilityInfo.BlockInPlace | source/DangIt/Maintenance/ModuleReliabilityInfo.cs:32-57 | each module's block sits right after the blocks of the modules before it |
| ReliabilityInfo.EndsBlank | source/DangIt/Maintenance/ModuleReliabilityInfo.cs:56 | the joined blocks end with the blank separator line |
| ReliabilityInfo.JoinedEndsInBreak | source/DangIt/Maintenance/ModuleReliabilityInfo.cs:37-59 | text built line by line ends in a line break |
| ReliabilityInfo.BuiltToLastIffNothingShown | source/DangIt/Maintenance/ModuleReliabilityInfo.cs:26-59 | the info is "This part has been built to last" exactly when no module wants to show its info |
| ReliabilityInfo.AppendBlock | source/DangIt/Maintenance/ModuleReliabilityInfo.cs:35-56 | the appended lines are exactly the module's block |
| ReliabilityInfo.GetInfo | source/DangIt/Maintenance/ModuleReliabilityInfo.cs:14-62 | the loops return exactly the specified info text, which is the placeholder exactly when no module wants to show its info |
| RequestSparesContainer.RequestTouchesOnlySpares | source/Maintenance/SparesContainer.cs:133-138 | the two requests change only the spares of the suit and the container; a container without spares is a null reference and changes nothing |
| RequestSparesContainer.RequestConserves | source/Maintenance/SparesContainer.cs:133-138 | when the suit can hold the maximum EVA amount, the kerbal takes between 0 and one increment, no spares are created or destroyed, and the suit stays within the EVA maximum |
| RequestSparesContainer.AsWrittenFillConservesWithRoom | source/Maintenance/SparesContainer.cs:117-143 | as written, a suit whose capacity already reaches the EVA maximum loses no spares |
| RequestSparesContainer.AsWrittenFillLosesSpares | source/Maintenance/SparesContainer.cs:117-143 | as written, a suit full at a capacity of 5 takes from a container of 10: the container gives 1 and the suit gains nothing, so one spare is lost |
| RequestSparesContainer.FillConserves | source/Maintenance/SparesContainer.cs:117-143 | with the suit's capacity raised to the EVA maximum, taking spares moves at most one increment, conserves the total and keeps the suit within the maximum |
| RequestSparesContainer.EmptyConserves | source/Maintenance/SparesContainer.cs:90-100 | depositing moves spares without creating or destroying any and keeps the container within its capacity |
| RequestSparesContainer.EmptyTouchesOnlySpares | source/Maintenance/SparesContainer.cs:95-100 | depositing changes only the spares of the suit and the container |
| RequestSparesContainer.EmptyWithoutSpares | source/Maintenance/SparesContainer.cs:95-96 | depositing from or into a part without spares is a null reference and changes nothing |
| RequestSparesContainer.ModuleSparesContainer.constructor | source/Maintenance/SparesContainer.cs:11 | a new container has no board handler registered and offers only the take event |
| RequestSparesContainer.ModuleSparesContainer.OnStart | source/Maintenance/SparesContainer.cs:13-18 | starting activates the take event and changes nothing else |
| RequestSparesContainer.ModuleSparesContainer.RequestSpares | source/Maintenance/SparesContainer.cs:133-138 | the amount the kerbal can take is requested from the container and its negation from the suit; a container without spares is a null reference |
| RequestSparesContainer.ModuleSparesContainer.FillEvaSuit | source/Maintenance/SparesContainer.cs:117-143 | as written: a suit without spares gets an empty SpareParts resource of capacity MaxEvaAmount, an existing one keeps its capacity, and the suit and container end as the as-written fill makes them, so a full suit of small capacity loses what the container gives |
| RequestSparesContainer.ModuleSparesContainer.FillEvaSuitRaised | source/Maintenance/SparesContainer.cs:117-143 | corrected: the suit's capacity is raised to MaxEvaAmount first, and the suit and container end as the conserving fill makes them |
| RequestSparesContainer.ModuleSparesContainer.EmptyEvaSuit | source/Maintenance/SparesContainer.cs:90-113 | the suit and container end as the deposit makes them |
| RequestSparesContainer.ModuleSparesContainer.TakeParts | source/Maintenance/SparesContainer.cs:22-38 | without a kerbal on EVA the container is unchanged; otherwise the suit is filled as written, its capacity not raised; afterwards the deposit event is active and exactly one board handler is registered |
| RequestSparesContainer.ModuleSparesContainer.DepositParts | source/Maintenance/SparesContainer.cs:43-56 | without a kerbal on EVA the container is unchanged; otherwise the suit is emptied; afterwards the deposit event is inactive and no board handler is registered |
| RequestSparesContainer.ModuleSparesContainer.OnCrewBoardVessel | source/Maintenance/SparesContainer.cs:149-159 | a kerbal boarding with spares leaves them in the part boarded; one without changes nothing |
| Resources.Min | source/Maintenance/SparesContainer.cs:133-134 | the minimum is one of the two values and below both |
| Resources.IndexOf | source/Maintenance/SparesContainer.cs:120 | the index found holds a resource of that name, or is -1 |
| Resources.IndexOfFirst | source/Maintenance/SparesContainer.cs:120 | the index is the first resource of that name, and -1 exactly when there is none |
| Resources.IndexOfAppended | source/Maintenance/SparesContainer.cs:120-129 | a resource added under a new name is found at the end |
| Resources.IndexOfSameNames | source/Maintenance/SparesContainer.cs:133-138 | changing amounts does not move where a resource is found |
| Resources.Taken | source/Maintenance/SparesContainer.cs:137-138 | a request takes what it asks for when the resource has it, never more than is there, and a negative request never overfills |
| Resources.TakenKeepsRange | source/Maintenance/SparesContainer.cs:137-138 | a request keeps the resource between empty and full |
| Resources.Part.constructor | source/Maintenance/SparesContainer.cs:117 | a part holds the given resources |
| Resources.Part.RequestResource | source/Maintenance/SparesContainer.cs:137-138 | a request changes only the amount of the named resource, by what it takes; a missing resource gives nothing |
| Resources.Part.AddResource | source/Maintenance/SparesContainer.cs:124-128 | adding a resource appends it with the given amount and capacity |
| Roster.FilterEquals | source/DangIt/Runtime/GUI/RosterWindow.cs:255-261 | two filters are equal exactly when all four toggles agree |
| Roster.FilterDiffers | source/DangIt/Runtime/GUI/RosterWindow.cs:276-277 | two filters differ exactly when they are not equal |
| Roster.InitialFilters | source/DangIt/Runtime/GUI/RosterWindow.cs:28-35 | in flight only the crew toggle starts on; elsewhere the other three start on and crew starts off |
| Roster.Selected | source/DangIt/Runtime/GUI/RosterWindow.cs:89-95 | the filtered roster is no longer than the roster |
| Roster.SelectedMembers | source/DangIt/Runtime/GUI/RosterWindow.cs:80-95 | a kerbal is listed exactly when it is on the roster and some active toggle admits it |
| Roster.NoToggleNoKerbal | source/DangIt/Runtime/GUI/RosterWindow.cs:80-85 | with every toggle off no kerbal is listed |
| Roster.MoreTogglesMoreKerbals | source/DangIt/Runtime/GUI/RosterWindow.cs:80-85 | switching more toggles on never lists fewer kerbals |
| Roster.MaxLevelValue | source/DangIt/Runtime/GUI/RosterWindow.cs:236 | the result is the highest level number: no level is above it and one reaches it |
| Roster.GetNextLevel | source/DangIt/Runtime/GUI/RosterWindow.cs:234-242 | the next level is one above the current one, except at the top level, which stays put; it never exceeds the highest level |
| Roster.ShowsMaxLevel | source/DangIt/Runtime/GUI/RosterWindow.cs:163-168 | "Max level" is shown exactly for the top level |
| Roster.HasEnoughResources | source/DangIt/Runtime/GUI/RosterWindow.cs:181-204 | a career game needs both the funds and the science of the training, a science game only the science, any other game nothing |
| Roster.AffordabilityMonotone | source/DangIt/Runtime/GUI/RosterWindow.cs:181-204 | a training affordable with some funds and science stays affordable with more |
| Roster.RosterWindow.constructor | source/DangIt/Runtime/GUI/RosterWindow.cs:15-35 | a new window starts with the initial filters, remembered as the previous ones, and the first kerbal selected |
| Roster.RosterWindow.CreateFilter | source/DangIt/Runtime/GUI/RosterWindow.cs:66-78 | the previous filters remember the active ones, which take the new toggles, except that crew is forced off outside flight |
| Roster.RosterWindow.SelectKerbal | source/DangIt/Runtime/GUI/RosterWindow.cs:89-117 | a change of filters resets the selection to the first kerbal; with nobody listed nothing is selected; otherwise the clicked or kept index selects the listed kerbal, and an index out of range is an error |
| RuntimeSettings.SoundLoops | source/DangIt/Runtime/Settings.cs:35-44 | priorities 1 to 3 use their own loop counts; any other priority makes no sound |
| RuntimeSettings.SoundLoopsByName | source/DangIt/Runtime/Settings.cs:30-33 | a priority name that is not LOW, MEDIUM or HIGH in any case makes no sound |
| RuntimeSettings.SoundLoopsByNames | source/DangIt/Runtime/Settings.cs:30-44 | low, medium and high pick their own loop counts whatever their case; the empty name makes no sound |
| RuntimeSettings.ReadNode | source/DangIt/Runtime/Settings.cs:51-69 | a missing node, or one not named SETTINGS, is the error "Invalid node!" |
| RuntimeSettings.WriteNode | source/DangIt/Runtime/Settings.cs:72-93 | the settings are written as a SETTINGS node without children |
| RuntimeSettings.SettingsKeysDistinct | source/DangIt/Runtime/Settings.cs:76-90 | the eleven keys written are pairwise distinct |
| RuntimeSettings.ReadsBack | source/DangIt/Runtime/Settings.cs:72-93 | the written node holds exactly the eleven keys in order, each with the text of its field |
| RuntimeSettings.ReadTexts | source/DangIt/Runtime/Settings.cs:51-69 | a SETTINGS node holding those texts reads back every field; the distance exactly when it is whole |
| RuntimeSettings.ReadWriteRoundTrip | source/DangIt/Runtime/Settings.cs:51-93 | writing then reading the settings succeeds and gives them back (the distance exactly when it is whole) |
| RuntimeSettings.Settings.constructor | source/DangIt/Runtime/Settings.cs:16-28 | new settings hold the defaults: enabled, no manual failures, distance 2, messages, glow and experience on, loops 0, 2 and -1, volume 100, no debug stats |
| RuntimeSettings.Settings.FromNode | source/DangIt/Runtime/Settings.cs:51-69 | building settings from a node fails exactly when reading it fails, with "Invalid node!", and otherwise holds what is read |
| RuntimeSettings.Settings.ShallowClone | source/DangIt/Runtime/Settings.cs:99-102 | the clone is a new object with the same fields |
| RuntimeStatic.IndexOf | source/DangIt/Runtime/Static.cs:25 | the index is the first position of the text, and -1 exactly when it is absent |
| RuntimeStatic.PriorityIntFromString | source/DangIt/Runtime/Static.cs:18-26 | the result is 0 for a name that is not a priority in upper case, else its position from 1 among LOW, MEDIUM, HIGH |
| RuntimeStatic.PriorityNames | source/DangIt/Runtime/Static.cs:18-26 | LOW, MEDIUM and HIGH are 1, 2 and 3 in any case, and the empty name is 0 |
| RuntimeStatic.Stamp | source/DangIt/Runtime/Static.cs:53-65 | two-digit fields give a stamp of fixed width, with three more characters for each of years and days when present |
| RuntimeStatic.StampReadsBack | source/DangIt/Runtime/Static.cs:56-65 | within the first day the stamp reads "[hh:mm:ss" followed by the closing, and each field reads back as its value |
| RuntimeStatic.FlightLog | source/DangIt/Runtime/Static.cs:51-68 | the event log gains one entry: the mission time stamp with "]: " and the message; the clock does not move |
| RuntimeStatic.Broadcast | source/DangIt/Runtime/Static.cs:82-86 | a message is shown exactly when it overrides the mute or messages are on, and then unchanged |
| RuntimeStatic.PostMessage | source/DangIt/Runtime/Static.cs:92-105 | a message is posted under its title exactly when a broadcast would show it |
| RuntimeStatic.ResetPartGlow | source/DangIt/Runtime/Static.cs:155-183 | the part tree comes back re-highlighted: each part is red exactly when Glow is on and one of its failure modules has failed and is not silent |
| RuntimeStatic.ResetShipGlow | source/DangIt/Runtime/Static.cs:143-147 | a vessel without a root part is an error; otherwise its whole tree is re-highlighted and nothing else changes |
| Scenarios.ProtoScenarioModule.constructor | source/DangIt/Runtime/ScenarioInjector.cs:19 | a scenario record holds its module name and target scenes |
| Scenarios.Game.constructor | source/DangIt/Runtime/ScenarioInjector.cs:18 | a game holds its scenario records |
| Scenarios.Game.AddProtoScenarioModule | source/DangIt/Runtime/ScenarioInjector.cs:24-27 | a new record with the given scenes is appended to the game's records |
| Scenarios.FindScenario | source/DangIt/Runtime/ScenarioInjector.cs:19 | no record is found exactly when none has the name; one found has the name and is in the game |
| Scenarios.WithSceneProperties | source/DangIt/Runtime/ScenarioInjector.cs:40-46 | adding a target scene keeps the others in order, adds it once only when absent, never duplicates, and is idempotent |
| Scenarios.WithScenesProperties | source/DangIt/Runtime/ScenarioInjector.cs:33-36 | ensuring several scenes keeps the old ones in order, targets exactly the old ones and the required ones, and never duplicates |
| Scenarios.WithScenesPresent | source/DangIt/Runtime/ScenarioInjector.cs:42 | scenes already targeted change nothing |
| Scenarios.WithScenesIdempotent | source/DangIt/Runtime/ScenarioInjector.cs:33-36 | ensuring the scenes twice is the same as once |
| Scenarios.SetTargetScene | source/DangIt/Runtime/ScenarioInjector.cs:40-46 | the record's scenes become the old ones with the scene added when absent |
| Scenarios.FindAppended | source/DangIt/Runtime/ScenarioInjector.cs:21-27 | a record appended under a name nobody had is the one found afterwards |
| SettingsWindowModel.ClampVolume | source/DangIt/Runtime/GUI/SettingsWindow.cs:136-140 | the volume is clamped into 1 to 100: below goes to 1, above to 100, inside stays |
| SettingsWindowModel.Applied | source/DangIt/Runtime/GUI/SettingsWindow.cs:128-141 | applying keeps every toggle, parses each text field with its own default (distance 2, loops 0, 2 and -1, volume 100) and clamps the volume into 1 to 100 |
| SettingsWindowModel.ApplyAgainChangesNothing | source/DangIt/Runtime/GUI/SettingsWindow.cs:128-145 | applying again the fields that the window re-shows after an apply changes nothing (for a whole distance) |
| SettingsWindowModel.SettingsWindow.constructor | source/DangIt/Runtime/GUI/SettingsWindow.cs:6-21 | a new window is hidden, has no copy of the settings, is not waiting for a confirmation and has empty text fields |
| SettingsWindowModel.SettingsWindow.ReInitialize | source/DangIt/Runtime/GUI/SettingsWindow.cs:35-43 | the window takes a fresh copy of the current settings and its text fields mirror it; without current settings it is a null reference and nothing changes |
| SettingsWindowModel.SettingsWindow.SetEnabled | source/DangIt/Runtime/GUI/SettingsWindow.cs:22-33 | enabling the window re-initialises it from the current settings; disabling changes nothing else |
| SettingsWindowModel.SettingsWindow.ConfirmChoice | source/DangIt/Runtime/GUI/SettingsWindow.cs:61-79 | "Yes" installs the edited settings and remembers their enabled flag; "No" restores the remembered flag; either ends the wait |
| SettingsWindowModel.SettingsWindow.ToggleEnable | source/DangIt/Runtime/GUI/SettingsWindow.cs:83-86 | the Enable toggle sets the flag, and a flag different from the remembered one starts waiting for a confirmation |
| SettingsWindowModel.SettingsWindow.EditFields | source/DangIt/Runtime/GUI/SettingsWindow.cs:88-125 | when the mod is enabled the toggles and text fields take the user's input; when disabled nothing changes |
| SettingsWindowModel.SettingsWindow.Apply | source/DangIt/Runtime/GUI/SettingsWindow.cs:128-145 | the current settings become the applied copy, and the window re-initialises from them, its volume within 1 to 100 |
| SettingsWindowModel.SettingsWindow.WindowFunction | source/DangIt/Runtime/GUI/SettingsWindow.cs:59-150 | while waiting, nothing happens until Yes or No; otherwise changing the enabled flag starts a wait, and Apply installs settings whose volume is within 1 to 100 |
| SparesContainer.FillPreparesSuit | source/DangIt/Maintenance/SparesContainer.cs:109-125 | before taking spares the suit holds a spares resource of capacity at least the EVA maximum: an existing one keeps its place and never shrinks, a missing one is appended empty at the maximum |
| SparesContainer.FillKeepsOtherSuitResources | source/DangIt/Maintenance/SparesContainer.cs:107-137 | filling changes no other resource of the suit |
| SparesContainer.FillTouchesContainerSpares | source/DangIt/Maintenance/SparesContainer.cs:131-134 | filling changes only the container's spares; a container without spares is a null reference and is left alone |
| SparesContainer.FillConserves | source/DangIt/Maintenance/SparesContainer.cs:107-142 | taking spares moves between 0 and the minimum increment, creates or destroys none, and keeps the suit within the EVA maximum and the container non-negative |
| SparesContainer.EmptyConserves | source/DangIt/Maintenance/SparesContainer.cs:78-103 | depositing moves spares without creating or destroying any and keeps the container within its capacity |
| SparesContainer.EmptyTouchesOnlySpares | source/DangIt/Maintenance/SparesContainer.cs:83-90 | depositing changes only the spares of the suit and the container |
| SparesContainer.EmptyWithoutSpares | source/DangIt/Maintenance/SparesContainer.cs:83-84 | depositing from or into a part without spares is a null reference and changes nothing |
| SparesContainer.ModuleSparesContainer.constructor | source/DangIt/Maintenance/SparesContainer.cs:15 | a new container has no board handler registered and offers only the take event |
| SparesContainer.ModuleSparesContainer.OnStart | source/DangIt/Maintenance/SparesContainer.cs:17-23 | starting activates the take event and changes nothing else |
| SparesContainer.ModuleSparesContainer.FillEvaSuit | source/DangIt/Maintenance/SparesContainer.cs:107-142 | the suit and container end as Fill makes them |
| SparesContainer.ModuleSparesContainer.EmptyEvaSuit | source/DangIt/Maintenance/SparesContainer.cs:78-103 | the suit and container end as Empty makes them |
| SparesContainer.ModuleSparesContainer.TakeParts | source/DangIt/Maintenance/SparesContainer.cs:39-56 | without a kerbal on EVA it throws and nothing changes; otherwise the suit is filled, the deposit event becomes active and exactly one board handler is registered |
| SparesContainer.ModuleSparesContainer.DepositParts | source/DangIt/Maintenance/SparesContainer.cs:60-74 | without a kerbal on EVA the container is unchanged; otherwise the suit is emptied; afterwards the deposit event is inactive and no board handler is registered |
| SparesContainer.ModuleSparesContainer.OnCrewBoardVessel | source/DangIt/Maintenance/SparesContainer.cs:148-157 | a kerbal boarding with spares leaves them in the part boarded; one without changes nothing |
| SparesTransfer.FillAmount | source/DangIt/Maintenance/SparesContainer.cs:129-131 | the amount taken is the least of the room left in the suit, the increment and what the container holds, so it never overfills the suit or overdraws the container |
| SparesTransfer.DepositAmount | source/DangIt/Maintenance/SparesContainer.cs:83-84 | the deposit is the lesser of what the suit holds and the room left in the container, so neither goes out of range |
| SparesTransfer.SparesAmountUpdate | source/DangIt/Maintenance/SparesContainer.cs:90 | setting the spares amount leaves the spares where they were, with the new amount |
| SparesTransfer.WithSpares | source/DangIt/Maintenance/SparesContainer.cs:109-119 | a suit without spares gains an empty spares resource at the EVA maximum, at the end; one with spares is unchanged |
| SparesTransfer.Raised | source/DangIt/Maintenance/SparesContainer.cs:121-125 | the spares capacity is raised to at least the EVA maximum, never lowered, and nothing else changes |
| SparesTransfer.PreparedSuit | source/DangIt/Maintenance/SparesContainer.cs:109-125 | the prepared suit holds spares of capacity at least the EVA maximum with the amount it had, and every other resource is unchanged |
| SparesTransfer.PrepareSuit | source/DangIt/Maintenance/SparesContainer.cs:109-125 | the suit becomes the prepared suit and the index returned is where its spares are |
| TankReliability.AddIfAbsent | source/Tanks.cs:66-68 | a name is appended only when absent: the list keeps its order, gains exactly that name, and stays free of duplicates |
| TankReliability.ExtendBlackList | source/Tanks.cs:66-68 | the blacklist keeps its entries in order, gains exactly the missing default names, and stays free of duplicates |
| TankReliability.FirstBlackList | source/Tanks.cs:66-68 | the first start gives ElectricCharge, SolidFuel and SpareParts, in that order |
| TankReliability.ExtendBlackListIdempotent | source/Tanks.cs:62-68 | starting the module again does not change the blacklist |
| TankReliability.Leakables | source/Tanks.cs:71 | the leakable resources are exactly the part's resources not blacklisted, in part order |
| TankReliability.StopFlow | source/Tanks.cs:105-106 | the leaking resource stops flowing and nothing else changes |
| TankReliability.SetFlow | source/Tanks.cs:113 | the resource takes the given flow mode and nothing else changes |
| TankReliability.RepairUndoesStop | source/Tanks.cs:105-113 | restoring the saved flow mode after a leak gives back the resources as they were |
| TankReliability.Drain | source/Tanks.cs:91 | only the leaking resource loses amount; for a fraction between 0 and 1 it stays in range and never grows |
| TankReliability.AsWrittenFailMessage | source/Tanks.cs:17 | the message names the resource at the index the module held before the failure, when that index is valid |
| TankReliability.AsWrittenMessageBlamesOtherTank | source/Tanks.cs:17 | with fuel and oxidizer leakable, a leak drawn in the oxidizer after index 0 is announced as a fuel leak |
| TankReliability.ModuleTankReliability.Leak | source/Tanks.cs:40-54 | the leaking resource is a resource of the part |
| TankReliability.ModuleTankReliability.constructor | source/Tanks.cs:26-59 | a new tank module has decay fraction 0.005, severities 0.0001 to 0.001, leak index 0, no leakables and an empty blacklist |
| TankReliability.ModuleTankReliability.DI_OnStart | source/Tanks.cs:62-79 | outside the editor the blacklist gains the defaults, the leakables are rescanned, and the module disables itself when there is none; in the editor nothing changes |
| TankReliability.ModuleTankReliability.DI_Fail | source/Tanks.cs:96-107 | the severity is the one drawn; with leakables, a drawn one stops flowing and its old flow mode is kept; without, nothing leaks |
| TankReliability.ModuleTankReliability.DI_Update | source/Tanks.cs:82-93 | a failed module drains its leaking resource; an intact one changes nothing |
| TankReliability.ModuleTankReliability.DI_EvaRepair | source/Tanks.cs:111-114 | a repair restores the saved flow mode of the leaking resource |
| TankReliability.ModuleTankReliability.FailureMessage | source/Tanks.cs:17 | there is a message exactly when the module's current leak index is valid, and it names the resource at that index |
| TankReliability.ModuleTankReliability.Fail | source/ModuleBaseFailure.cs:218-252 | as written: a disabled module does nothing; otherwise the module is marked failed and the message of the previous leak index is broadcast before DI_Fail draws the new leak; when that index is invalid (no leakables) the message throws, the module disables itself and nothing leaks |
| TankReliability.ModuleTankReliability.FailAnnouncingLeak | source/ModuleBaseFailure.cs:218-252 | corrected: a failure marks the module failed and stops one drawn resource, announcing that resource's leak; without leakables the module disables itself and nothing leaks |
| TankReliability.ModuleTankReliability.OnStart | source/ModuleBaseFailure.cs:88-154 | a disabled module changes nothing; a start outside the editor extends the blacklist and rescans the leakables; in flight the part is untouched and may begin a new life; a failed part is failed again outside flight, through the as-written Fail |
| TankReliability.ModuleTankReliability.OnFixedUpdate | source/ModuleBaseFailure.cs:160-213 | when an update is due the age, clock and MTBF advance and a rolled failure sticks, broadcasting the message of the previous leak index as the as-written Fail does; a failed tank keeps draining its leak |
| TankReliability.ModuleTankReliability.EvaRepair | source/ModuleBaseFailure.cs:259-323 | a repair paid with spares clears the failure and restores the leaking resource's flow; without a kerbal or spares nothing changes |
| Text.TrimStart | source/DangIt/Runtime/DangIt.cs:35 | only leading white space is removed, and the result does not start with white space |
| Text.TrimEnd | source/DangIt/Runtime/DangIt.cs:35 | only trailing white space is removed, and the result does not end with white space |
| Text.Trim | source/DangIt/Runtime/DangIt.cs:35 | the trimmed text neither starts nor ends with white space |
| Text.TrimUnpadded | source/DangIt/Runtime/DangIt.cs:35 | a text without surrounding white space is left as it is |
| Text.ToUpper | source/DangIt/Runtime/Static.cs:25 | every character is upper-cased in place |
| Text.ToLower | source/DangIt/Runtime/Static.cs:118 | every character is lower-cased in place |
| Text.SplitNonEmpty | source/DangIt/Perks/Perk.cs:35 | every part is non-empty and free of the separator |
| Text.SplitSkipsSeparators | source/DangIt/Perks/Perk.cs:35 | leading separators produce no parts |
| Text.SplitPair | source/DangIt/Perks/Perk.cs:35 | two names joined by any run of separators split into exactly those two names |
| Text.DigitValue | source/DangIt/Runtime/Static.cs:118 | a digit's value is below ten |
| Text.DigitChar | source/DangIt/Runtime/Static.cs:56-63 | the digit written for a value reads back as that value |
| Text.NatText | source/DangIt/Runtime/Static.cs:56-63 | a number is written as digits, without leading zero, that read back as the number |
| Text.IntText | source/DangIt/Runtime/Settings.cs:83-87 | an integer's text starts with a minus exactly when it is negative |
| Text.IntTextRoundTrip | source/DangIt/Runtime/Settings.cs:60-87 | every integer written as text parses back as itself |
| Text.UnsignedDecimal | source/DangIt/Runtime/Static.cs:118 | a text without sign reads as a non-negative number |
| Text.RealText | source/DangIt/Runtime/Settings.cs:78 | a number's text is never empty |
| Text.RealTextWhole | source/DangIt/Runtime/Settings.cs:78 | a whole number is written like the integer, without fraction |
| Text.WholeRealTextRoundTrip | source/DangIt/Runtime/Settings.cs:57-78 | every whole number written as text parses back as itself |
| Text.NatTextUnsigned | source/DangIt/Runtime/Static.cs:118 | a number's digits read back as the number and start and end with a digit |
| Text.UnsignedParse | source/DangIt/Runtime/Static.cs:118 | an unsigned text that starts and ends with a digit parses to its value |
| Text.MinusParse | source/DangIt/Runtime/Static.cs:118 | a minus before an unsigned text parses to the negated value |
| Text.Pad2 | source/DangIt/Runtime/Static.cs:53-63 | the "00" format writes at least two digits that read back as the number, exactly two below 100 |
| Text.JoinLines | source/DangIt/Maintenance/ModuleReliabilityInfo.cs:37-59 | every line contributes at least its line break |
| CUtils.PriorityTableAgrees | source/DangIt/Utilities/Utilities.cs:18-23 | the priority table holds exactly LOW, MEDIUM and HIGH with the numbers the string lookup gives; the table is case-sensitive where the lookup is not |
| CUtils.FlightLog | source/DangIt/Utilities/Utilities.cs:51-55 | the event log gains the message alone, without a time stamp |
| CUtils.ResetPartGlow | source/DangIt/Utilities/Utilities.cs:135-155 | the part tree comes back re-highlighted: each part is red exactly when Glow is on and one of its failure modules has failed and is not silent |
| CUtils.ResetShipGlow | source/DangIt/Utilities/Utilities.cs:115-129 | a vessel without a parts list, or without a root part (the exception is caught), is unchanged; otherwise its whole tree is re-highlighted |
| Vessels.FindEVAIndex | source/DangIt/Runtime/Static.cs:133 | the index is the first active EVA vessel, and -1 exactly when there is none |
| Vessels.FindEVAPart | source/DangIt/Runtime/Static.cs:131-135 | without an active EVA vessel there is no part; otherwise the part is the root part of the first one |

## Left out

- Randomness: the failure dice, the drawn leak, severities, the repair discount and the perk levels are inputs (`failureRolled`, `roll`, `discountedCost`, `levelFor`, draws), not `UnityEngine.Random`.
- Clock: `Planetarium` time, `DangIt.Now()`, `Static.Now()` and the mission elapsed time are inputs (`now`, `met`).
- Floating-point numerics: the exponential MTBF decay (source/FailureModule.cs:241, source/ModuleBaseFailure.cs:188) is the input `decayedMTBF`; `Lambda` is reduced to the outcome of the dice; the `Math.Log` of the end-of-life estimate is the input `logLife`; the rounding of the discounted repair cost is not modelled.
- Float precision: floats are exact `real`s; single-precision rounding is not modelled.
- IppoSettings.ReadWriteRoundTrip: states the full round trip only for a whole MaxDistance, because the text of a fractional float (seven decimals here) is not C#'s shortest round-trip format; the boolean fields round-trip for every value.
- LegacySettings.ReadWriteRoundTrip: exact only for a whole RepairDistance, for the same reason.
- RuntimeSettings.ReadWriteRoundTrip: exact only for a whole MaxDistance, for the same reason; every bool and int field round-trips for every value.
- FailureModules.SaveLoadRoundTrip: restores the whole saved state only when its floats are whole numbers or +inf, for the same reason; the two flags round-trip always.
- Enum.Parse: only member names and the decimal numbers of members are accepted; C#'s acceptance of undefined numbers, surrounding white space and comma-separated flag lists is not modelled.
- `GetMappedVolume` (a float division for the audio volume) and `GetMaxServicingTemp` (a `GameDatabase` lookup) of source/DangIt/Runtime/Settings.cs are not modelled.
- Audio: AlarmManager's AudioSource playback is the input "is playing"; sounds are not played.
- Message sinks: `ScreenMessages` and `MessageSystem` posts are modelled as the message the call would produce where a member returns it (`posted`); styles, durations and icons are not modelled.
- Diagnostic logs: `Debug.Log`, `this.Log` and `CUtils.Log` lines (such as the "couldn't find an active EVA" line of the spares containers' TakeParts and DepositParts) are not modelled.
- Spares broadcasts: the "has taken N spares" and "has left N spares" messages of the three spares containers are not modelled.
- Glow refresh after a failure module changes: the `ResetShipGlow` calls at the end of OnStart, Fail and EvaRepair (source/ModuleBaseFailure.cs:139, :231, :311; source/FailureModule.cs:207, :290, :347) are not made by those members; the refresh itself is modelled separately as LegacyStatic.ResetShipGlow and RuntimeStatic.ResetShipGlow.
- Text.ToUpper / Text.ToLower: only the ASCII letters are mapped; C#'s culture-aware mapping of other letters (such as 'ı' to 'I') is not modelled.
- Resource flow: `RequestResource` acts on the one part it is called on; crossfeed to other parts and `ResourceDisplay.Refresh` are not modelled.
- Files: loading and saving settings, blacklist and cfg files is reduced to the node or the lines read (or the read error); file existence is an input.
- GameEvents: registering and removing the crew-boarding handler is modelled as a flag and a handler count; the event dispatch itself is not modelled.
- Coroutines and callbacks: `RuntimeFetch`, `AddAppButton`, the part-info cache reload scheduling and the per-frame loop of source/DangIt/Runtime/GlowEnforcer.cs are not modelled.
- GUI drawing: every `GUILayout`/`GUI` call of RosterWindow.cs and SettingsWindow.cs is left out; the windows are modelled by their state changes, with button presses and edited texts as inputs. source/DangIt/Runtime/GUI/GUI.cs and source/Runtime/SettingsGUI.cs (toolbar and window plumbing) are not part of this model.
- Stock and FAR wrappers whose host modules are not shown: source/Gimbal.cs, source/ReactionWheel.cs, source/Engines.cs, source/Lights.cs, source/ModuleRCSReliability.cs, source/DangIt_FAR/FARControlSurface.cs and source/DangIt/Utilities/DecouplerManager.cs are not part of this model.
- Reflection and crew-file glue: source/DangIt/API/DangItHook.cs, source/DangIt/Perks/ProtoCrewMemberExtensions.cs and source/DangIt/Perks/Extensions.cs are not part of this model (the last calls a list-returning `Perk.FromNode` that no `Perk` defines).
- Data-only or dead files: source/PartModuleException.cs, source/PerkGenerator.cs (entirely commented out) and source/DangIt/Perks/TrainingCost.cs are not part of this model; the constants of source/Runtime/SparesInfo.cs and source/DangIt/Runtime/SparesInfo.cs appear as constants of the spares containers.
- source/DangIt/build.py, a file-copying installer, is not part of this model.
- The `DEBUG` compile-time switch is an input of the functions that depend on it (a `Build` value or a `debug` flag).

## Findings

| source | as written | input that shows it | evidently intended | confidence | as-written member | corrected member |
|---|---|---|---|---|---|---|
| source/DangIt/Runtime.cs:95-99 | `CreateDefaultSettings` adds the settings node to itself, so the BLACKLIST node it builds is never attached, and `OnLoad` reads that missing node without a null check | a first run with no settings file: loading the default node throws a NullReferenceException | attach the BLACKLIST node, so a first run loads ElectricCharge, SolidFuel and SpareParts and the default settings | high, not executed | LegacyRuntime.AsWrittenFirstRunFails, LegacyRuntime.Runtime.OnLoad | LegacyRuntime.FixedFirstRun, LegacyRuntime.Runtime.OnLoadFixed |
| source/Maintenance/SparesContainer.cs:117-143 | filling the suit requests the spares from the container and their negation from the suit, but never raises the suit's capacity to MaxEvaAmount | a suit holding SpareParts 5 of 5 and a container holding 10 of 100: the container gives 1 and the suit gains 0 | raise the suit's capacity first, as the newest generation does, so the total is conserved | medium, not executed | RequestSparesContainer.AsWrittenFillLosesSpares, RequestSparesContainer.ModuleSparesContainer.FillEvaSuit | RequestSparesContainer.FillConserves, RequestSparesContainer.ModuleSparesContainer.FillEvaSuitRaised |
| source/Tanks.cs:17 | the failure message reads `leakables[leakIndex]` before `DI_Fail` draws the new leak index (source/ModuleBaseFailure.cs:218-252) | LiquidFuel and Oxidizer leakable, previous index 0, drawn index 1: the message names LiquidFuel while the oxidizer leaks | announce the resource that actually leaks | high, not executed | TankReliability.AsWrittenMessageBlamesOtherTank, TankReliability.ModuleTankReliability.Fail | TankReliability.ModuleTankReliability.FailAnnouncingLeak |
