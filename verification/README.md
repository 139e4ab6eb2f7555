# CPU voltage and frequency bring-up of clover: a verified model

The repository brings up CPU frequency scaling on the Xiaomi Mi Pad 4 (clover, SDM660). Two hardware
blocks are programmed by two kernel drivers: the CPRh controller, which holds a voltage table computed
from calibration fuses, and the OSM, which switches frequencies and asks the CPRh for voltages. The
project models the drivers as of the repository's patch series, the vendor driver they replace, and three
tools of the repository, and proves what they are for.

| files | what they model |
|---|---|
| FuseVoltage, CornerTable, Quotients, CornerWord, CornerProgram | fuses to corner voltages, quotients, windows, crossover rows and packed words of the CPRh controller |
| OsmParams, MemAcc, OsmScript, OsmProgram | operating points to the OSM's lookup table and sequencer; the whole set-up call with its gates |
| Script, Bringup, Stages, Arming | register traces of scripts cut by gates and failing calls; what each gate decides; safety over whole runs |
| EndToEnd, CprhPass, Sdm660 | from fuses through both drivers; one computed pass; the SDM660 data |
| Clover | the operating-point tables clover ships for speed bin 0 |
| Vendor, Refinement | the vendor driver; agreement of the two drivers' register images, and where they differ |
| BootImage, DeviceTree, PhandleDiff, Png | the boot image repacker, the device-tree comparison, the PNG reader |
| Arith, Bits, Bytes, Wrappers | C integers, bit fields, byte strings, results |

Code that changes state step by step is modelled as methods over arrays and objects (`CprThread`, `Cluster`,
`ClkOsm`, the loops over corner arrays, header bytes, stacks and rows). Each such method is proved against a
specification function, and the properties are lemmas about those functions. Register writes go to a log;
a script (`Script.Action`) is a sequence of writes, secure writes and calls that may fail, gates, and the latch
that marks a thread as set up. `OsmProgram` proves that the driver code issues exactly its script;
`Bringup` and `Arming` reason about scripts. Hardware answers, read-back registers, the regulator's corner
voltages, SHA1 and zlib are parameters.

Main results: `CornerTable.TableInvariant`, `Quotients.QuotientsRiseIff`, `FuseVoltage.InterpolateIsLeast`, `CornerProgram.WrittenRowDecodes`,
`OsmParams.GenParams`, `EndToEnd.ApmCornerOf`, `EndToEnd.CrossoverRowsAgree`, `CprhPass.Compute`, `Sdm660.SplitsTable`,
`Stages.StopDecides`, `Bringup.GatesDecide`, `Arming.ArmingIsSafe`, `Arming.TableWrittenOnce`, `Refinement.SameImage`,
`Refinement.SameSequencer`, `CornerWord.ControlExactIff`, `Vendor.ClkOsm.SetRate`, `BootImage.ParseRepacked`, `BootImage.OwnParts`,
`BootImage.SplitUndoesAppend`, `DeviceTree.PropsAreTrees`, `PhandleDiff.PrintedRenumbering`,
`PhandleDiff.ShownAsOneTextIff`, `Png.PngRoundTrip`.

## Where the code and its text or its predecessor disagree

- `cprh_init_stop=4` is described as the full sequence (0007:27), but the latch needs 5: at 4 the whole table is
  written and the thread stays unarmed (`Bringup.TableWithoutArming`; docs/nura-cprh-port.md records the same).
- A phase below 4 is said to leave the OSM without an APM threshold (0007:29-31). The thresholds are exported
  with the corner arithmetic, before phase 2 is checked, so at stops 2 and 3 the OSM is programmed and can be
  enabled over a controller without a corner table (`Bringup.EnabledWithoutTable`). It is never armed so.
- Without ACD, OSM stops 8 to 10 fall through to the enable write unless patch 0024 is in; both are modelled
  (`acdGated`).
- A regulator step of 1 uV, and only that, lets a voltage below the base turn negative and pass the range check
  (`CornerWord.AcceptedVoltages`, `CornerWord.OneMicrovoltStepWraps`). No descriptor has one.
- Both ceiling reductions together can close the ceiling below the voltage: exactly for a voltage at the fuse
  ceiling, a fuse voltage below it and a window of more than one voltage (`Loose` in `CornerTable.TableInvariant`;
  `CornerTable.LooseCorner`). No descriptor asks for both.
- The forced increase of the quotients is there to scale them up with the corners (0001:2050-2053). It puts the
  difference of the fused quotients where that of the targets belongs, so it can push a target past its own fused
  quotient and let the next one fall (`Quotients.QuotientsFall`; `Quotients.QuotientsRiseIff` says exactly when).
- With a MEM-ACC threshold, which MSM8998 has, the two OSM drivers never program the same sequencer: where a row from
  3 on reaches it first the new one switches at a lower corner; where an earlier row does, or none, it falls back
  to 255 and leaves SEQ_REG(88) unwritten, which the vendor always writes (`Refinement.MemAccThreshold`).
- The custom MEM-ACC branch can produce corner -1, exactly when the custom corner is 3 or rows 1 and 2 both raise
  the level (`MemAcc.CustomisedIncreasing`, `MemAcc.CornerMinusOne`).
- When no corner reaches the APM threshold, or already the first does, the two OSM drivers differ: the new one
  programs -1 and -2, or 0 and -1, the vendor 39 and 38, or 0 and 255 (`Refinement.SameSequencer`,
  `Clover.FlatTableDiverges`).
- The control register holds the step in whole millivolts, rounded up, in four bits and the base in ten; for any
  other step or base the controller counts differently from the driver (`CornerWord.ControlExactIff`). All three
  registered descriptors fit: 4 mV steps, over 400 mV on SDM630 and SDM660 and 352 mV on MSM8998
  (`Sdm660.DescriptorsFit`).

## Model

| member | source | states |
|---|---|---|
| FuseVoltage.ReadFuseRounding | device-fixes/nura/kernel-r101/0001-pmdomain-qcom-add-support-for-CPR-v3-v4-and-Hardened.patch:134-157 | the fused voltage is a multiple of the regulator step, never below what the sign-magnitude fuse encodes, and less than one step above it (when not negative) |
| FuseVoltage.SignMagnitudeRange | device-fixes/nura/kernel-r101/0001-pmdomain-qcom-add-support-for-CPR-v3-v4-and-Hardened.patch:146-149 | a fuse of w bits encodes a step count strictly between -2^(w-1) and 2^(w-1) |
| FuseVoltage.FuseMovesVoltage | device-fixes/nura/kernel-r101/0001-pmdomain-qcom-add-support-for-CPR-v3-v4-and-Hardened.patch:146-157 | fuse m raises the reference by m steps and the same fuse with its top bit set lowers it by m steps, before rounding up to the regulator step |
| FuseVoltage.RoundedWindow | device-fixes/nura/kernel-r101/0001-pmdomain-qcom-add-support-for-CPR-v3-v4-and-Hardened.patch:202-240 | both ends of a descriptor window go up to the next multiple of the step, and nothing else of it changes |
| FuseVoltage.StoredIsNearest | device-fixes/nura/kernel-r101/0001-pmdomain-qcom-add-support-for-CPR-v3-v4-and-Hardened.patch:202-240 | a fuse corner stores the voltage of its window nearest to the fused one |
| FuseVoltage.PopulateFuseCommon | device-fixes/nura/kernel-r101/0001-pmdomain-qcom-add-support-for-CPR-v3-v4-and-Hardened.patch:202-240 | succeeds exactly when both cells read and the voltage is not negative; then window ends, clamped voltage and scaled quotient of that one corner are set; without a voltage nothing changes, without a quotient only window and voltage |
| FuseVoltage.AdjustQuotBounds | device-fixes/nura/kernel-r101/0001-pmdomain-qcom-add-support-for-CPR-v3-v4-and-Hardened.patch:1731-1740 | the closed-loop adjustment is the factor per volt, cut toward zero |
| FuseVoltage.FusedQuotMoves | device-fixes/nura/kernel-r101/0001-pmdomain-qcom-add-support-for-CPR-v3-v4-and-Hardened.patch:1771-1784 | the closed-loop adjustment moves a fused quotient up when positive and down when negative, by the factor per volt cut toward zero |
| FuseVoltage.FuseCornerInit | device-fixes/nura/kernel-r101/0001-pmdomain-qcom-add-support-for-CPR-v3-v4-and-Hardened.patch:1755-1811 | succeeds exactly when every corner reads and the running maximum of the clamped voltages fits every window; each corner then holds that running maximum and the quotient with its closed-loop adjustment |
| FuseVoltage.RunningMaxIsMax | device-fixes/nura/kernel-r101/0001-pmdomain-qcom-add-support-for-CPR-v3-v4-and-Hardened.patch:1796-1798 | the forced increase makes a corner the highest voltage fused so far, and one that was really fused |
| FuseVoltage.OrderedCeilingsFit | device-fixes/nura/kernel-r101/0001-pmdomain-qcom-add-support-for-CPR-v3-v4-and-Hardened.patch:1796-1808 | with non-decreasing ceilings the range check can never fail: only an unreadable fuse can |
| FuseVoltage.AcceptedTableIsGood | device-fixes/nura/kernel-r101/0001-pmdomain-qcom-add-support-for-CPR-v3-v4-and-Hardened.patch:1755-1811 | an accepted fuse table has ordered windows and step-aligned, non-decreasing voltages |
| FuseVoltage.DropBounds | device-fixes/nura/kernel-r101/0001-pmdomain-qcom-add-support-for-CPR-v3-v4-and-Hardened.patch:421-431 | without u64 wrap the drop is the smaller of share and slope limit, never more than the exact share of the voltage difference |
| FuseVoltage.InterpolateBounds | device-fixes/nura/kernel-r101/0001-pmdomain-qcom-add-support-for-CPR-v3-v4-and-Hardened.patch:397-434 | the interpolated voltage is step-aligned, between the two fuse voltages, and never below the exact straight line |
| FuseVoltage.InterpolateIsLeast | device-fixes/nura/kernel-r101/0001-pmdomain-qcom-add-support-for-CPR-v3-v4-and-Hardened.patch:421-433 | the interpolated voltage is the least multiple of the step at or above the limited line: less than a step above the higher of the straight line and the slope limit's line |
| FuseVoltage.InterpolateAtTop | device-fixes/nura/kernel-r101/0001-pmdomain-qcom-add-support-for-CPR-v3-v4-and-Hardened.patch:397-419 | at the top of a fuse corner, or where the fuse points do not rise, it is the fuse voltage |
| FuseVoltage.HalfwayVoltage | device-fixes/nura/kernel-r101/0001-pmdomain-qcom-add-support-for-CPR-v3-v4-and-Hardened.patch:397-434 | an input: between 700 mV at 600 MHz and 800 mV at 1 GHz, 800 MHz gets 752 mV |
| FuseVoltage.InterpolateMonotone | device-fixes/nura/kernel-r101/0001-pmdomain-qcom-add-support-for-CPR-v3-v4-and-Hardened.patch:397-434 | within a fuse corner a higher frequency never gets a lower voltage |
| CornerWord.WordIsSum | device-fixes/nura/kernel-r101/0001-pmdomain-qcom-add-support-for-CPR-v3-v4-and-Hardened.patch:2267-2286 | the five masked and shifted fields occupy disjoint bits, whatever was masked away |
| CornerWord.WordDecodes | device-fixes/nura/kernel-r101/0001-pmdomain-qcom-add-support-for-CPR-v3-v4-and-Hardened.patch:762-774 | every accepted word decodes back to its five fields and fits 30 bits |
| CornerWord.AcceptedVoltages | device-fixes/nura/kernel-r101/0001-pmdomain-qcom-add-support-for-CPR-v3-v4-and-Hardened.patch:2234-2265 | with u32 wrap below the base: a voltage field is negative exactly for a 1 uV step and a request (up to 2^31) under the base; it is accepted exactly up to 255 steps over the base and, below it, within a step or when negative |
| CornerWord.PackedBelowBase | device-fixes/nura/kernel-r101/0001-pmdomain-qcom-add-support-for-CPR-v3-v4-and-Hardened.patch:2234-2268 | with a 1 uV step every request under the base is accepted and packed modulo 256 |
| CornerWord.OneMicrovoltStepWraps | device-fixes/nura/kernel-r101/0001-pmdomain-qcom-add-support-for-CPR-v3-v4-and-Hardened.patch:2234-2268 | an input: 1 uV below the base at a 1 uV step is packed as the highest voltage |
| CornerWord.ControlExactIff | device-fixes/nura/kernel-r101/0001-pmdomain-qcom-add-support-for-CPR-v3-v4-and-Hardened.patch:1658-1668 | the 10-bit base field and the 4-bit millivolt multiplier stand for the regulator steps of the driver, for every field, exactly when the step is whole millivolts up to 15 and the base takes at most 1023 steps |
| CornerWord.DecodedNeverBelow | device-fixes/nura/kernel-r101/0001-pmdomain-qcom-add-support-for-CPR-v3-v4-and-Hardened.patch:1658-1668 | what the controller takes an accepted field for, through both control fields, is never below the request while they hold step and base; with whole millivolts, an aligned base and a request at or above it, less than one step above |
| CornerWord.DeltaCovers | device-fixes/nura/kernel-r101/0001-pmdomain-qcom-add-support-for-CPR-v3-v4-and-Hardened.patch:2250-2253 | the decoded quotient lies in [target, target + 4) |
| CornerTable.RestrictCorner | device-fixes/nura/kernel-r101/0001-pmdomain-qcom-add-support-for-CPR-v3-v4-and-Hardened.patch:1813-1827 | cuts one window at one threshold, in place, and touches no other corner |
| CornerTable.RestrictSides | device-fixes/nura/kernel-r101/0001-pmdomain-qcom-add-support-for-CPR-v3-v4-and-Hardened.patch:1813-1827 | a cut at a threshold inside the window lifts the floor to the hysteresis under it, or closes the ceiling one step under it |
| CornerTable.SetVoltage | device-fixes/nura/kernel-r101/0001-pmdomain-qcom-add-support-for-CPR-v3-v4-and-Hardened.patch:2060-2084 | first half of a pass: adjusted and clamped voltage, raised to the corner before it, with the full fuse window |
| CornerTable.CutWindow | device-fixes/nura/kernel-r101/0001-pmdomain-qcom-add-support-for-CPR-v3-v4-and-Hardened.patch:2089-2113 | second half of a pass: ceiling, floor and threshold cuts of the same corner |
| CornerTable.SetQuotient | device-fixes/nura/kernel-r101/0001-pmdomain-qcom-add-support-for-CPR-v3-v4-and-Hardened.patch:2028-2062 | the quotient part of a pass: scaling from oscillator or fused offset, closed-loop adjustment and forced increase; it gives up exactly where the scaling cannot be had |
| CornerTable.CornerVoltages | device-fixes/nura/kernel-r101/0001-pmdomain-qcom-add-support-for-CPR-v3-v4-and-Hardened.patch:2010-2118 | fills the array in place with the recursively defined table, quotient adjustments included; gives up exactly when some scaling cannot be had or some adjustment exceeds the fused quotient; the minimum quotient is that of all corners |
| CornerTable.QuotientIs | device-fixes/nura/kernel-r101/0001-pmdomain-qcom-add-support-for-CPR-v3-v4-and-Hardened.patch:2069-2073 | a corner is given up without an adjustment or where its target would be negative; else the target is the fused quotient less the adjustment |
| CornerTable.LevelWalk | device-fixes/nura/kernel-r101/0001-pmdomain-qcom-add-support-for-CPR-v3-v4-and-Hardened.patch:1910-1969 | accepts exactly two or more described levels in ascending frequency order (level 1 compared with the word in front of the array), records their data with the thread's own fuse level, or the global one where it has none, and raises each fuse corner's highest frequency |
| CornerTable.LevelsAcceptedIff | device-fixes/nura/kernel-r101/0001-pmdomain-qcom-add-support-for-CPR-v3-v4-and-Hardened.patch:1911-1963 | levels are accepted exactly when each is there with a fuse level, and none has a lower frequency than an earlier one or than the word in front |
| CornerTable.FinishedOk | device-fixes/nura/kernel-r101/0001-pmdomain-qcom-add-support-for-CPR-v3-v4-and-Hardened.patch:2075-2113 | for every descriptor that reduces to the corner: the threshold cuts never move a voltage, floor <= voltage inside the fuse window, and the corner has its ceiling at the voltage and is cut at both thresholds exactly when it is not loose |
| CornerTable.FinishedWindow | device-fixes/nura/kernel-r101/0001-pmdomain-qcom-add-support-for-CPR-v3-v4-and-Hardened.patch:2092-2113 | the exact window: ceiling at the voltage (at the fuse voltage where loose), floor the range under it but not under the fuse window, lifted to the thresholds inside, less the hysteresis for the APM |
| CornerTable.ClampedIsNearest | device-fixes/nura/kernel-r101/0001-pmdomain-qcom-add-support-for-CPR-v3-v4-and-Hardened.patch:2075-2082 | the clamped target is the voltage of the fuse window nearest to the target |
| CornerTable.TableInvariant | device-fixes/nura/kernel-r101/0001-pmdomain-qcom-add-support-for-CPR-v3-v4-and-Hardened.patch:2010-2118 | for any number of corners with non-decreasing fuse levels and ceilings: each voltage is the highest clamped target so far, voltages non-decreasing, floor and voltage inside the own fuse window; exactly the corners that are not loose have their ceiling at the voltage and no window across a threshold beyond the hysteresis |
| CornerTable.TableIsTight | device-fixes/nura/kernel-r101/0001-pmdomain-qcom-add-support-for-CPR-v3-v4-and-Hardened.patch:2092-2113 | without the second reduction, as in every descriptor, that holds of every corner |
| CornerTable.LooseCorner | device-fixes/nura/kernel-r101/0001-pmdomain-qcom-add-support-for-CPR-v3-v4-and-Hardened.patch:2092-2096 | an input: one corner lifted to its fuse ceiling of 10 over a fuse voltage of 5, whose ceiling closes at 5 |
| CornerTable.CeilingIsVoltage | device-fixes/nura/kernel-r101/0001-pmdomain-qcom-add-support-for-CPR-v3-v4-and-Hardened.patch:2092-2096 | before the threshold cuts the ceiling closes at the voltage exactly when the corner is not loose: not both reductions with the voltage at the ceiling of a window of more than one voltage and the fuse voltage below it |
| CornerTable.BaseMonotone | device-fixes/nura/kernel-r101/0001-pmdomain-qcom-add-support-for-CPR-v3-v4-and-Hardened.patch:2030-2067 | later corners are never aimed lower, within and across fuse corners |
| CornerTable.TableIsPointwise | device-fixes/nura/kernel-r101/0001-pmdomain-qcom-add-support-for-CPR-v3-v4-and-Hardened.patch:2083-2085 | over ordered corners the forced increase never fires: each voltage is its own clamped target |
| CornerTable.WalkedCornersInterpolable | device-fixes/nura/kernel-r101/0001-pmdomain-qcom-add-support-for-CPR-v3-v4-and-Hardened.patch:1950-1952 | after the level walk each corner lies between the highest frequencies of its two fuse points |
| Quotients.QuotientsRiseIff | device-fixes/nura/kernel-r101/0001-pmdomain-qcom-add-support-for-CPR-v3-v4-and-Hardened.patch:2050-2062 | the target quotients never fall exactly when, wherever the forced increase acts, the corner before was adjusted up by no more than twice the step between the two fused quotients |
| Quotients.QuotientsFall | device-fixes/nura/kernel-r101/0001-pmdomain-qcom-add-support-for-CPR-v3-v4-and-Hardened.patch:2050-2062 | an input: two fuse corners with an oscillator each, on which the forced increase gives 700 and then 600 |
| Quotients.ScalingIs | device-fixes/nura/kernel-r101/0001-pmdomain-qcom-add-support-for-CPR-v3-v4-and-Hardened.patch:366-395 | the scaling is a thousand times the quotient rise per megahertz, of the quotients where one oscillator serves both fuse corners and of the fused offset else, cut down and at the highest one allowed |
| Quotients.OwnTargetIs | device-fixes/nura/kernel-r101/0001-pmdomain-qcom-add-support-for-CPR-v3-v4-and-Hardened.patch:2038-2046 | a corner aims at its fused quotient, less the scaled distance from the top, plus the closed-loop adjustment, up when positive and down when negative |
| Quotients.SharedNeverForced | device-fixes/nura/kernel-r101/0001-pmdomain-qcom-add-support-for-CPR-v3-v4-and-Hardened.patch:366-395 | with one oscillator and no closed-loop adjustments, over ordered corners, the increase never acts: each adjustment is the corner's own, and the targets never fall |
| CornerProgram.CprThread.AddCrossovers | device-fixes/nura/kernel-r101/0001-pmdomain-qcom-add-support-for-CPR-v3-v4-and-Hardened.patch:2131-2189 | appends APM, then MEM-ACC, while reserved rows last; accepted exactly when all were filled; no other array element is written; the exported thresholds |
| CornerProgram.CprThread.WriteRows | device-fixes/nura/kernel-r101/0001-pmdomain-qcom-add-support-for-CPR-v3-v4-and-Hardened.patch:2226-2292 | writes the words of the leading rows that are in range and succeeds exactly when that is all of them |
| CornerProgram.WrittenRowDecodes | device-fixes/nura/kernel-r101/0001-pmdomain-qcom-add-support-for-CPR-v3-v4-and-Hardened.patch:2231-2287 | through both control fields a written row decodes to voltage and floor never below the corner's and less than a step above them (whole millivolts, aligned base), its oscillator, its loop bit, and a quotient in [target, target + 4) |
| CornerProgram.TableRowDecodes | device-fixes/nura/kernel-r101/0001-pmdomain-qcom-add-support-for-CPR-v3-v4-and-Hardened.patch:2231-2287 | each corner's row carries the oscillator of its own fuse corner and covers its own target quotient; a row past the corners selects oscillator 0 and no quotient |
| CornerProgram.MinQuotientBelow | device-fixes/nura/kernel-r101/0001-pmdomain-qcom-add-support-for-CPR-v3-v4-and-Hardened.patch:2072-2073 | the running minimum is at most every quotient, so no delta is negative |
| CornerProgram.MinQuotientAttained | device-fixes/nura/kernel-r101/0001-pmdomain-qcom-add-support-for-CPR-v3-v4-and-Hardened.patch:2072-2073 | and it is the quotient of one of the corners |
| CornerProgram.ReservedRowsFilled | device-fixes/nura/kernel-r101/0001-pmdomain-qcom-add-support-for-CPR-v3-v4-and-Hardened.patch:2186-2189 | with the rows the probe reserves, the table is refused exactly for an APM crossover without an APM threshold |
| OsmParams.VisitAscends | device-fixes/nura/kernel-r101/0003-cpufreq-qcom-hw-implement-CPRh-aware-OSM-programming.patch:508-522 | the ceil-then-increment loop visits frequencies strictly upwards, and only points of the table |
| OsmParams.VisitCovers | device-fixes/nura/kernel-r101/0003-cpufreq-qcom-hw-implement-CPRh-aware-OSM-programming.patch:508-522 | over distinct frequencies it visits every point |
| OsmParams.VisitCount | device-fixes/nura/kernel-r101/0003-cpufreq-qcom-hw-implement-CPRh-aware-OSM-programming.patch:508-522 | it visits exactly as many points as there are at or above the start |
| OsmParams.FillEntry | device-fixes/nura/kernel-r101/0003-cpufreq-qcom-hw-implement-CPRh-aware-OSM-programming.patch:524-586 | refuses exactly points without a node, without an override, or outside 150..1400 mV; otherwise fills the one row |
| OsmParams.ReadPoints | device-fixes/nura/kernel-r101/0003-cpufreq-qcom-hw-implement-CPRh-aware-OSM-programming.patch:508-594 | writes only inside the table; succeeds exactly when every visited point is usable; then row i is the i-th lowest frequency and both threshold corners are first hits |
| OsmParams.GenParams | device-fixes/nura/kernel-r101/0003-cpufreq-qcom-hw-implement-CPRh-aware-OSM-programming.patch:414-623 | succeeds exactly with two or more points, an APM threshold, no point below 1 kHz and every point usable; then every point was emitted once, row i carrying corner i |
| OsmParams.FreqWordIsSum | device-fixes/nura/kernel-r101/0003-cpufreq-qcom-hw-implement-CPRh-aware-OSM-programming.patch:570-586 | source, multiplier below 2^16, core count and divider do not overlap |
| OsmParams.FreqWordFields | device-fixes/nura/kernel-r101/0003-cpufreq-qcom-hw-implement-CPRh-aware-OSM-programming.patch:976-993 | read_lut()'s extraction recovers source, multiplier and core count, and the divider |
| OsmParams.VoltWordFields | device-fixes/nura/kernel-r101/0003-cpufreq-qcom-hw-implement-CPRh-aware-OSM-programming.patch:976-993 | corner and millivolts are recovered from the voltage word |
| OsmParams.EntryDecodes | device-fixes/nura/kernel-r101/0003-cpufreq-qcom-hw-implement-CPRh-aware-OSM-programming.patch:524-586 | row i decodes to corner i at the point's millivolts, the alternate source for row 0 only, its multiplier, core count and divider, with its own override and spare word |
| MemAcc.AccBrackets | device-fixes/nura/kernel-r101/0003-cpufreq-qcom-hw-implement-CPRh-aware-OSM-programming.patch:850-873 | the detector records 0, 2 or 4 values that bracket exactly the first two rows asking for a higher level than level 1 and all before |
| MemAcc.AcceptedIff | device-fixes/nura/kernel-r101/0003-cpufreq-qcom-hw-implement-CPRh-aware-OSM-programming.patch:875-877 | the run is accepted exactly when two rows rise |
| MemAcc.FirstRowLow | device-fixes/nura/kernel-r101/0003-cpufreq-qcom-hw-implement-CPRh-aware-OSM-programming.patch:843-848 | with a first row of level 1 at most no recorded corner is negative |
| MemAcc.PaddingInert | device-fixes/nura/kernel-r101/0003-cpufreq-qcom-hw-implement-CPRh-aware-OSM-programming.patch:814-817 | rows repeating the last valid row never record a pair |
| MemAcc.CustomisedIncreasing | device-fixes/nura/kernel-r101/0003-cpufreq-qcom-hw-implement-CPRh-aware-OSM-programming.patch:883-909 | the custom-corner branch ends strictly increasing and below the custom corner; the lowest value is -1 exactly when the custom corner is 3 or rows 1 and 2 both rise |
| MemAcc.CustomisedIsHighest | device-fixes/nura/kernel-r101/0003-cpufreq-qcom-hw-implement-CPRh-aware-OSM-programming.patch:883-909 | no other strictly rising corners below the custom corner and not above the detected ones are higher anywhere |
| MemAcc.CornerMinusOne | device-fixes/nura/kernel-r101/0003-cpufreq-qcom-hw-implement-CPRh-aware-OSM-programming.patch:883-909 | an input: four rows and a custom corner 3 that program corner -1 |
| Vendor.VendorAgrees | device-fixes/nura/cpufreq/clk-cpu-osm-660.c:2003-2018 | on a column rising 1, 2, 3 the new detector and the vendor's map give the same four values |
| OsmScript.DetectedInTable | device-fixes/nura/kernel-r101/0003-cpufreq-qcom-hw-implement-CPRh-aware-OSM-programming.patch:904-910 | the recorded corners are rows of the parameter table, so the multiplier is read in range |
| Script.GatePrefix | device-fixes/nura/kernel-r101/0006-cpufreq-qcom-hw-BRINGUP-walk-the-OSM-setup-one-step-.patch:78-85 | what a script writes at a lower gate is a prefix of what it writes at a higher one |
| Script.DoneIff | device-fixes/nura/kernel-r101/0006-cpufreq-qcom-hw-BRINGUP-walk-the-OSM-setup-one-step-.patch:78-85 | when nothing fails a script ends exactly when its highest gate is open |
| OsmProgram.Cluster.FillTable | device-fixes/nura/kernel-r101/0003-cpufreq-qcom-hw-implement-CPRh-aware-OSM-programming.patch:808-873 | the 40 rows as written, padding included, and the MEM-ACC pairs found on the way |
| OsmProgram.Cluster.WriteCorners | device-fixes/nura/kernel-r101/0003-cpufreq-qcom-hw-implement-CPRh-aware-OSM-programming.patch:904-908 | four secure writes; the first refused one ends the set-up |
| OsmProgram.Cluster.ProgramSequencer | device-fixes/nura/kernel-r101/0003-cpufreq-qcom-hw-implement-CPRh-aware-OSM-programming.patch:879-945 | issues exactly the sequencer script, whatever write is refused |
| OsmProgram.Cluster.WriteLut | device-fixes/nura/kernel-r101/0003-cpufreq-qcom-hw-implement-CPRh-aware-OSM-programming.patch:770-945 | issues exactly the table script, gates 1 to 3 included |
| OsmProgram.Cluster.AcdInit | device-fixes/nura/kernel-r101/0003-cpufreq-qcom-hw-implement-CPRh-aware-OSM-programming.patch:684-752 | issues exactly the ACD script, gates 8 to 10 and failing transfers included |
| OsmProgram.Cluster.CprhInit | device-fixes/nura/kernel-r101/0010-pmdomain-qcom-cpr3-look-up-the-CPRh-thread-instead-o.patch:449-545 | issues exactly the script of one pass, leaves thresholds and latch as it says, and writes nothing for a thread already set up |
| OsmProgram.Cluster.WriteTable | device-fixes/nura/kernel-r101/0007-pmdomain-qcom-cpr3-BRINGUP-walk-the-CPRh-setup-one-p.patch:97-106 | corner rows in order, the range check after them, the latch only past phase 4 |
| OsmProgram.Cluster.CprhEnable | device-fixes/nura/kernel-r101/0005-pmdomain-qcom-cpr3-arm-the-CPRh-loop-only-once-the-O.patch:198-228 | arms a latched thread and refuses any other; that the loop comes before the interface is `Arming.ArmingIsSafe` |
| OsmProgram.Cluster.OsmSetup | device-fixes/nura/kernel-r101/0003-cpufreq-qcom-hw-implement-CPRh-aware-OSM-programming.patch:1183-1287 | the whole set-up call issues exactly the whole script, for any gates, hardware answers and earlier state |
| Bringup.SetupPrefix | device-fixes/nura/kernel-r101/0006-cpufreq-qcom-hw-BRINGUP-walk-the-OSM-setup-one-step-.patch:94-214 | for N <= M under the same answers and CPRh gate, the write trace at stop N is a prefix of the one at M |
| Bringup.ReachesStart | device-fixes/nura/kernel-r101/0006-cpufreq-qcom-hw-BRINGUP-walk-the-OSM-setup-one-step-.patch:94-214 | when all calls succeed the start is reached exactly when the CPRh part exports thresholds and every gate before it is open |
| Bringup.GatesDecide | device-fixes/nura/kernel-r101/0006-cpufreq-qcom-hw-BRINGUP-walk-the-OSM-setup-one-step-.patch:200-214 | OSM enable is written exactly when the CPRh gate is 2 or more and the OSM gate is past 10 (past 7 without ACD and without the extra check); loop and interface exactly for CPRh gate 5 or more and OSM gate 12 or more |
| Stages.StopDecides | device-fixes/nura/kernel-r101/0006-cpufreq-qcom-hw-BRINGUP-walk-the-OSM-setup-one-step-.patch:94-214 | stop by stop: a call stopped at gate n has written exactly the pieces before gates 0 to n, in order, with and without ACD |
| Stages.FirstStops | device-fixes/nura/kernel-r101/0006-cpufreq-qcom-hw-BRINGUP-walk-the-OSM-setup-one-step-.patch:94-214 | at stop 1 only the CPRh part is written, at 2 the whole table but nothing of the sequencer, at 3 both |
| Stages.CprhRegisters | device-fixes/nura/kernel-r101/0001-pmdomain-qcom-add-support-for-CPR-v3-v4-and-Hardened.patch:2190-2292 | the CPRh part writes registers of the CPRh thread and closes the interface, nothing else |
| Bringup.EnabledWithoutTable | device-fixes/nura/kernel-r101/0007-pmdomain-qcom-cpr3-BRINGUP-walk-the-CPRh-setup-one-p.patch:17-32 | code against its text: at CPRh stops 2 and 3 the thresholds are exported, so the OSM is enabled although no corner row was ever written |
| Bringup.RowsWrittenIff | device-fixes/nura/kernel-r101/0007-pmdomain-qcom-cpr3-BRINGUP-walk-the-CPRh-setup-one-p.patch:90-106 | when all calls succeed a fresh thread's corner rows are written exactly from CPRh gate 4 on, past OSM gate 0 |
| Bringup.TableWithoutArming | device-fixes/nura/kernel-r101/0007-pmdomain-qcom-cpr3-BRINGUP-walk-the-CPRh-setup-one-p.patch:17-32 | code against its text: at CPRh gate 4 the whole table is written, and neither the loop nor the interface is turned on |
| Bringup.AcdPieces | device-fixes/nura/kernel-r101/0024-cpufreq-qcom-hw-honour-the-ACD-bring-up-gate-steps-o.patch:25-37 | the ACD part ends at gate 10, also without ACD where the check of patch 0024 is in |
| Arming.CallIsScript | device-fixes/nura/kernel-r101/0010-pmdomain-qcom-cpr3-look-up-the-CPRh-thread-instead-o.patch:449-573 | in a run, a call that is not disturbed issues exactly the writes of its script |
| Arming.SetupSafe | device-fixes/nura/kernel-r101/0010-pmdomain-qcom-cpr3-look-up-the-CPRh-thread-instead-o.patch:449-573 | every set-up script obeys the arming rule from every state its thread and history agree on |
| Arming.RunKeepsInv | device-fixes/nura/kernel-r101/0010-pmdomain-qcom-cpr3-look-up-the-CPRh-thread-instead-o.patch:465-573 | the invariant holds after any moves: any gates, failures, retries and interleaving of any number of clusters |
| Arming.ArmingIsSafe | device-fixes/nura/kernel-r101/0005-pmdomain-qcom-cpr3-arm-the-CPRh-loop-only-once-the-O.patch:100-125 | wherever loop or interface is turned on, the thread was latched before after a pass with all its rows; since the interface was closed each row register was last written with its word of that pass, at the latch and still then; its OSM was enabled after performance state 0 was requested; and the interface only opens after the loop was enabled, and that after the latch |
| Arming.TableWrittenOnce | device-fixes/nura/kernel-r101/0010-pmdomain-qcom-cpr3-look-up-the-CPRh-thread-instead-o.patch:471-472 | after the latch no retry writes the thread's table or set-up registers again, or latches twice |
| EndToEnd.AdjustOpps | device-fixes/nura/kernel-r101/0001-pmdomain-qcom-add-support-for-CPR-v3-v4-and-Hardened.patch:1841-1866 | succeeds exactly when every corner has a point at its frequency; then each point holds the voltage of the corner at its frequency |
| EndToEnd.RowsAreCorners | device-fixes/nura/kernel-r101/0003-cpufreq-qcom-hw-implement-CPRh-aware-OSM-programming.patch:508-522 | over matched tables the loop emits exactly one row per corner, in corner order, at the corner's voltage |
| EndToEnd.ApmSplits | device-fixes/nura/kernel-r101/0003-cpufreq-qcom-hw-implement-CPRh-aware-OSM-programming.patch:547-550 | the first corner reaching the APM threshold splits the CPRh table exactly: voltages below it before, at or over it from there on; loose corners apart, whole windows under the threshold before, and floors of at least threshold minus hysteresis after |
| EndToEnd.ApmCornerOf | device-fixes/nura/kernel-r101/0001-pmdomain-qcom-add-support-for-CPR-v3-v4-and-Hardened.patch:2010-2189 | the whole chain, corner arithmetic, hand-over, crossover rows and parameter generation: it succeeds exactly when every corner has a point, the crossover rows are accepted with an APM threshold, there are two corners or more and every point is usable; the APM corner then splits the table |
| EndToEnd.CrossoverRowsAgree | device-fixes/nura/kernel-r101/0003-cpufreq-qcom-hw-implement-CPRh-aware-OSM-programming.patch:919-932 | for every table and parameters the two drivers accept, from the thresholds exported between them, the row numbers the OSM is given name the CPRh rows of the two crossover voltages |
| EndToEnd.NoCrossoverNoParams | device-fixes/nura/kernel-r101/0001-pmdomain-qcom-add-support-for-CPR-v3-v4-and-Hardened.patch:2134-2147 | without an APM crossover no threshold is exported and the OSM driver refuses its parameters |
| EndToEnd.ComputedPass | device-fixes/nura/kernel-r101/0001-pmdomain-qcom-add-support-for-CPR-v3-v4-and-Hardened.patch:2226-2292 | the set-up pass of a corner table has its row words as rows and all rows as total, and passes the range check exactly when every row is in range |
| CprhPass.Compute | device-fixes/nura/kernel-r101/0001-pmdomain-qcom-add-support-for-CPR-v3-v4-and-Hardened.patch:2010-2292 | the loop over the corners, the hand-over, the crossover rows and the packing one after the other on the thread's arrays: the pass is the one of the corner table, with the thresholds that appending the crossovers exported, and fails exactly when a corner has no quotient or no point, or a reserved row was not filled |
| EndToEnd.CrossoverWord | device-fixes/nura/kernel-r101/0001-pmdomain-qcom-add-support-for-CPR-v3-v4-and-Hardened.patch:2228-2287 | through both control fields a crossover row's word is open-loop and stands for the crossover voltage, rounded up by less than a step |
| Sdm660.AnyFusesAccepted | device-fixes/nura/kernel-r101/0016-pmdomain-qcom-cpr3-add-SDM630-SDM660-CPRh.patch:84-268 | whatever the 6-bit voltage fuses hold, both threads' fuse corners are accepted |
| Sdm660.FuseCornersGood | device-fixes/nura/kernel-r101/0016-pmdomain-qcom-cpr3-add-SDM630-SDM660-CPRh.patch:84-268 | both threads' data meet every hypothesis of the corner lemmas |
| Sdm660.FuseThree | device-fixes/nura/kernel-r101/0016-pmdomain-qcom-cpr3-add-SDM630-SDM660-CPRh.patch:84-127 | an input: on the first fuse corner of the power cluster fuse 3 gives 672 mV and fuse 35 gives 612 mV |
| Sdm660.AnyFusesGiveGoodTable | device-fixes/nura/kernel-r101/0016-pmdomain-qcom-cpr3-add-SDM630-SDM660-CPRh.patch:84-307 | for any fuses and ordered corners: the table invariant, pointwise voltages, 8-bit fields that fit, and voltages the OSM accepts |
| Sdm660.CrossoverRow | device-fixes/nura/kernel-r101/0016-pmdomain-qcom-cpr3-add-SDM630-SDM660-CPRh.patch:280-307 | the reserved row is filled and its word stands for exactly 872 mV, open-loop |
| Sdm660.SplitsTable | device-fixes/nura/kernel-r101/0016-pmdomain-qcom-cpr3-add-SDM630-SDM660-CPRh.patch:84-307 | the whole chain on SDM660: for any voltage fuses and points that match ordered corners the parameters are accepted, the APM corner splits the table into whole windows at 872 mV, and the crossover row number names the row of 872 mV |
| Sdm660.DescriptorsFit | device-fixes/nura/kernel-r101/0001-pmdomain-qcom-add-support-for-CPR-v3-v4-and-Hardened.patch:2639-2662 | the 4 mV step and the base of every registered descriptor, 400 mV on SDM630 and SDM660 and 352 mV on MSM8998, fit the control fields |
| Vendor.ClkOsm.GetLut | device-fixes/nura/cpufreq/clk-cpu-osm-660.c:888-981 | refuses exactly bad lengths and more than 40 rows, and reads outside its array exactly for an empty property; else fills all 40 entries, the last row repeating, and collects the rates of all-core rows |
| Vendor.QuadRatesCollected | device-fixes/nura/cpufreq/clk-cpu-osm-660.c:953-976 | the collected rates are those of the rows that run all cores, and no others |
| Vendor.ClkOsm.ResolveOpenLoop | device-fixes/nura/cpufreq/clk-cpu-osm-660.c:1577-1591 | 16-bit millivolts of each entry's corner; nothing else changes |
| Vendor.ClkOsm.SetupHwTable | device-fixes/nura/cpufreq/clk-cpu-osm-660.c:1534-1575 | writes the 40 rows, repeating the last valid values, unless two adjacent rows conflict; then exactly the rows before the conflict |
| Vendor.NoConflictIff | device-fixes/nura/cpufreq/clk-cpu-osm-660.c:1551-1560 | there is no conflict exactly when all rows in a run at one corner, other than corner 0, have the same spare word |
| Vendor.ClkOsm.ResolveThreshold | device-fixes/nura/cpufreq/clk-cpu-osm-660.c:1638-1663 | corner of the first entry reaching a threshold and the one before it (255 for corner 0), or 39 and 38 |
| Vendor.ClkOsm.ResolveCrossover | device-fixes/nura/cpufreq/clk-cpu-osm-660.c:1593-1703 | threshold and crossover corners, MEM-ACC ones only with a threshold |
| Vendor.ClkOsm.ProgramMemAcc | device-fixes/nura/cpufreq/clk-cpu-osm-660.c:1996-2085 | the MEM-ACC writes: crossover if resolved, four corners, multiplier of each row at the last; it writes outside its level map exactly for a fourth level change |
| Vendor.DynamicIs | device-fixes/nura/cpufreq/clk-cpu-osm-660.c:2043-2063 | with a MEM-ACC corner resolved the lower two are the highest rising ones below it and the fixed ones; where none comes before it they are 255 |
| Vendor.ClkOsm.Probe | device-fixes/nura/cpufreq/clk-cpu-osm-660.c:3190-3302 | the cluster's whole table and sequencer programming from any property and the regulator, with or without an APM threshold; it is refused exactly for a bad length or a conflict, and leaves an array exactly for an empty property or a fourth level change |
| Vendor.ClkOsm.DetermineRate | device-fixes/nura/cpufreq/clk-cpu-osm-660.c:612-651 | the least supported rate at or above a non-zero request, else the highest; the first for zero; tables in any order |
| Vendor.ClkOsm.SearchTable | device-fixes/nura/cpufreq/clk-cpu-osm-660.c:653-674 | first all-core row of a rate, else its last single-core row other than row 0, else none |
| Vendor.ClkOsm.SetRate | device-fixes/nura/cpufreq/clk-cpu-osm-660.c:676-722 | a non-zero request succeeds exactly for collected rates and selects the first all-core row; a rejected one writes no register |
| Vendor.ClkOsm.SetThenRead | device-fixes/nura/cpufreq/clk-cpu-osm-660.c:754-772 | a rate that was set is read back |
| Refinement.Generate | tools/gen-clover-cpufreq-dt.py:41-52 | the generator accepts exactly whole rows whose corner column counts from 1, and emits one point per row |
| Refinement.ParamsOfTable | device-fixes/nura/kernel-r101/0003-cpufreq-qcom-hw-implement-CPRh-aware-OSM-programming.patch:508-619 | the points of a canonical table are accepted and emitted in the vendor's row order |
| Refinement.CanonicalAccepted | device-fixes/nura/cpufreq/clk-cpu-osm-660.c:1551-1560 | the vendor driver finds no conflict in a canonical table |
| Refinement.SameImage | device-fixes/nura/cpufreq/clk-cpu-osm-660.c:1541-1569 | for every canonical table of 2 to 40 rows the vendor driver accepts it, and both drivers' logs leave the same value in every register of all 40 rows, whatever came before and whatever becomes of the writes after, the vendor's sequencer all or none |
| Refinement.BothDrivers | device-fixes/nura/kernel-r101/0003-cpufreq-qcom-hw-implement-CPRh-aware-OSM-programming.patch:808-820 | the same from the property to the registers, through the code of both drivers and the generator |
| Refinement.ReadBack | device-fixes/nura/kernel-r101/0003-cpufreq-qcom-hw-implement-CPRh-aware-OSM-programming.patch:976-993 | reading any programmed row back gives its clock source, multiplier, core count, divider, corner and millivolts |
| Refinement.OneRowRefused | device-fixes/nura/kernel-r101/0003-cpufreq-qcom-hw-implement-CPRh-aware-OSM-programming.patch:803-806 | divergence: every one-row table the vendor accepts is refused |
| Refinement.SequencerRuns | device-fixes/nura/kernel-r101/0003-cpufreq-qcom-hw-implement-CPRh-aware-OSM-programming.patch:879-945 | with no refused write the sequencer script issues one explicit list of writes |
| Refinement.SameSequencer | device-fixes/nura/cpufreq/clk-cpu-osm-660.c:2303-2339 | on rising levels the two drivers issue identical sequencer writes exactly when there is no MEM-ACC threshold, the first corner's voltage is under the APM threshold and some corner's reaches it; otherwise a named register differs |
| Refinement.MemAccThreshold | device-fixes/nura/kernel-r101/0003-cpufreq-qcom-hw-implement-CPRh-aware-OSM-programming.patch:588-607 | with a MEM-ACC threshold the drivers never agree: first reached by a row from 3 on, both name the same crossover row and the new driver switches below the vendor's corner; first reached by row 0, 1 or 2, or by none, the new driver leaves the crossover register alone, which the vendor always writes |
| Clover.PropertyCanonical | tools/gen-clover-cpufreq-dt.py:41-52 | ordered nodes whose multipliers and dividers fit come from a canonical vendor property |
| Clover.ShippedTablesRefine | device-fixes/nura/kernel-r101/0021-arm64-dts-qcom-sda660-xiaomi-clover-CPU-DVFS-test-DT.patch:87-203 | both tables shipped for speed bin 0 come from canonical properties with rising levels, whatever the accepted corner voltages, so the two-driver results apply to them |
| Clover.ShippedTablesHealthy | device-fixes/nura/kernel-r101/0021-arm64-dts-qcom-sda660-xiaomi-clover-CPU-DVFS-test-DT.patch:87-203 | a set-up call for a shipped table whose calls succeed meets the hypotheses of the gate results |
| Clover.FlatTableDiverges | device-fixes/nura/cpufreq/clk-cpu-osm-660.c:2303-2339 | an input: a shipped table with every corner over the threshold, on which the sequencers differ |
| BootImage.NextPageIsPadded | tools/swap-bootimg-kernel.py:45-47 | offsets and padding round to the same boundary for every page size |
| BootImage.HeaderLayout | tools/swap-bootimg-kernel.py:50-64 | every header field is the little-endian number, or the bytes, at its own offset |
| BootImage.PartsLayout | tools/swap-bootimg-kernel.py:50-64 | kernel, ramdisk and second stage lie in that order, each from the first whole page at or after what precedes it |
| BootImage.BootimgId | tools/swap-bootimg-kernel.py:67-73 | hashes the three parts each followed by its length; fails exactly for a part of 4 GiB or more |
| BootImage.MessageLayout | tools/swap-bootimg-kernel.py:67-73 | by positions: kernel, ramdisk and second stage in that order, each followed by its length in four bytes, lowest first |
| BootImage.MessageInjective | tools/swap-bootimg-kernel.py:67-73 | the hashed message determines kernel, ramdisk and second stage |
| BootImage.Repack | tools/swap-bootimg-kernel.py:115-149 | fails exactly for an unparsable image, a kernel of 4 GiB or more, or a command line over 511 bytes; otherwise the edited header and padded parts |
| BootImage.ParseAssembled | tools/swap-bootimg-kernel.py:50-64 | parsing undoes the layout |
| BootImage.ParseRepacked | tools/swap-bootimg-kernel.py:115-149 | parsing a repacked well-formed image gives kernel = gz ++ dtb, everything else as before, the new command line if any, and a matching id |
| BootImage.RepackIdempotent | tools/swap-bootimg-kernel.py:115-149 | repacking the result with the same parts changes nothing |
| BootImage.OwnParts | tools/swap-bootimg-kernel.py:28-30 | repacking an image's own parts, with its own command line or none given, reproduces it byte for byte exactly when it is canonical: zero padding, nothing after it, matching id |
| BootImage.CmdlineCanBePassed | tools/swap-bootimg-kernel.py:28-30 | an image's own command line can be passed back exactly when its field ends in a zero; then it is the field without its trailing zeros |
| BootImage.Split | tools/swap-bootimg-kernel.py:76-86 | cuts the kernel at the first magic number, or reports that there is none |
| BootImage.SplitUndoesAppend | tools/swap-bootimg-kernel.py:37 | splitting gives back (gz, dtb) exactly when gz holds no magic number and dtb starts with it |
| BootImage.RepackThenSplit | tools/swap-bootimg-kernel.py:28-30 | the same through a whole repacked image |
| DeviceTree.Flatten | tools/dtb-semantic-diff.py:61-86 | the loop over dictionaries and stack is the line-by-line machine, errors included |
| DeviceTree.FlattenIsMeaning | tools/dtb-semantic-diff.py:64-86 | a printed tree, other lines in between, yields the recursively defined properties and phandles and an empty stack |
| DeviceTree.FullPathInjective | tools/dtb-semantic-diff.py:71-73 | different nodes have different path strings |
| DeviceTree.PropsAreTrees | tools/dtb-semantic-diff.py:81-85 | with distinct sibling names the properties are exactly the tree's, each under its node's full path |
| DeviceTree.PhandlesAreTrees | tools/dtb-semantic-diff.py:82-84 | a phandle only one node has is mapped to that node's path |
| PhandleDiff.CellsNamesAreRaw | tools/dtb-semantic-diff.py:51-58 | a property giving a number of cells is itself never listed |
| PhandleDiff.ByStem | tools/dtb-semantic-diff.py:27-48 | a listed key takes as many cells as its own cells property of the target says |
| PhandleDiff.UnlistedKey | tools/dtb-semantic-diff.py:51-58 | an unlisted key is a supply or numbered pin setting without arguments, a GPIO list, or compared raw |
| PhandleDiff.ReadsReference | tools/dtb-semantic-diff.py:102-118 | cells are read from the left: a null phandle, or a phandle with exactly the arguments its kind says; an unknown phandle fails |
| PhandleDiff.SkippedIff | tools/dtb-semantic-diff.py:93-97 | only paths that begin with one of the three bookkeeping nodes are left out |
| PhandleDiff.HexIsNumber | tools/dtb-semantic-diff.py:116 | arguments are printed in hexadecimal without leading zeros |
| PhandleDiff.PrintedToken | tools/dtb-semantic-diff.py:103-116 | a null phandle prints as <null>, a reference as its path in braces with its arguments |
| PhandleDiff.WalkCells | tools/dtb-semantic-diff.py:102-120 | the variable-stride walk, unresolved cases included |
| PhandleDiff.Resolve | tools/dtb-semantic-diff.py:93-121 | every property outside the skipped nodes, resolved or as it was |
| PhandleDiff.RenumberingInvisible | tools/dtb-semantic-diff.py:93-121 | when all listed properties resolve, any injective renaming that keeps 0 leaves the output unchanged and the comparison empty |
| PhandleDiff.WalkReads | tools/dtb-semantic-diff.py:102-118 | the stride walk agrees with reading cell by cell |
| PhandleDiff.ShownAlikeIff | tools/dtb-semantic-diff.py:102-118 | two resolving cell lists are shown alike exactly when their cell-by-cell readings are equal; then they agree cell by cell up to the node named |
| PhandleDiff.TextInjective | tools/dtb-semantic-diff.py:116-118 | the printed text of resolved cells determines them |
| PhandleDiff.ShownAsOneTextIff | tools/dtb-semantic-diff.py:130-135 | two resolving properties are printed alike exactly when their cell-by-cell readings are equal |
| PhandleDiff.NoDifferencesIff | tools/dtb-semantic-diff.py:127-136 | no difference is listed exactly when both trees have the same keys, all printed alike |
| PhandleDiff.DifferencesIff | tools/dtb-semantic-diff.py:127-131 | a key is listed exactly when what the two sides print for it, or its absence, differs |
| PhandleDiff.EmptyMeansAlike | tools/dtb-semantic-diff.py:127-136 | for resolving trees the comparison is empty exactly when, outside the skipped nodes, they have the same properties and all read alike: listed ones cell by cell, raw ones as text |
| PhandleDiff.Compare | tools/dtb-semantic-diff.py:124-136 | the comparison lists exactly the keys at which the two resolved trees are printed differently |
| PhandleDiff.PrintedRenumbering | tools/dtb-semantic-diff.py:124-136 | comparing two printed trees that differ by an injective renaming of phandles lists no difference |
| Png.PaethsAgree | scripts/device/camera-probe/measure-png.py:56-57 | the reduced distances give the Paeth predictor of section 6.6 of RFC 2083 |
| Png.PaethIsNearest | scripts/device/camera-probe/measure-png.py:56-57 | it is the neighbour nearest to left + above - corner, left before above before corner where equally near |
| Png.SubRow | scripts/device/camera-probe/measure-png.py:50-51 | type 1: each byte is the sum of the stored bytes at its place and at every pixel to its left, mod 256 |
| Png.UpRow | scripts/device/camera-probe/measure-png.py:52-53 | type 2: the stored byte plus the byte above, mod 256 |
| Png.AverageRow | scripts/device/camera-probe/measure-png.py:54-55 | type 3: the stored byte plus half the sum of the decoded left byte and the byte above, cut down, mod 256 |
| Png.PaethRow | scripts/device/camera-probe/measure-png.py:56-58 | type 4: the stored byte plus the Paeth predictor of the decoded left, upper and upper left bytes, mod 256 |
| Png.PlainRow | scripts/device/camera-probe/measure-png.py:48-58 | any other type: the stored bytes |
| Png.UnfilterFilter | scripts/device/camera-probe/measure-png.py:45-58 | unfiltering undoes filtering, for every filter type and row |
| Png.FilterUnfilter | scripts/device/camera-probe/measure-png.py:45-58 | and the converse |
| Png.UnfilterLine | scripts/device/camera-probe/measure-png.py:43-58 | the in-place loop unfilters a whole row; a row cut short fails exactly when a missing byte is used, and is else kept |
| Png.UnfilterImage | scripts/device/camera-probe/measure-png.py:39-61 | the row loop computes the decoding of any data, complete or not |
| Png.TooShort | scripts/device/camera-probe/measure-png.py:41-58 | data that ends before a row's filter type, or within a row of filter 1 to 4, decodes to nothing |
| Png.DecodeEncode | scripts/device/camera-probe/measure-png.py:39-61 | decoding undoes encoding for any choice of filter types, ignoring what follows |
| Png.WalkChunks | scripts/device/camera-probe/measure-png.py:22-32 | the chunk walk from byte 8, cut-short chunks and lengths included |
| Png.WalkFindsChunks | scripts/device/camera-probe/measure-png.py:24-32 | over stored chunks the walk finds the last header and the concatenated data |
| Png.HeaderFields | scripts/device/camera-probe/measure-png.py:28-29 | a header of ten bytes or more gives width, height, depth and colour type in that order, big-endian |
| Png.SaidData | scripts/device/camera-probe/measure-png.py:30-31 | the data is that of all data chunks in file order |
| Png.ChannelsByBits | scripts/device/camera-probe/measure-png.py:35 | samples per pixel by the palette, colour and alpha bits of the colour type |
| Png.ReadPng | scripts/device/camera-probe/measure-png.py:21-61 | the image of any file, or none where walk, header, colour type, inflating or rows fail |
| Png.PngRoundTrip | scripts/device/camera-probe/measure-png.py:21-61 | for 8- and 16-bit samples and any filter types, a file of an image reads back as the image |

## Left out

- CPR v3 and v4 code of patch 0001 (interrupts, regulators, restart worker, initial corner): only CPRh descriptors are registered.
- CornerTable.LevelWalk: the word in front of the array that the order check of level 1 reads is an input (`stale`), because the source does not define it.
- CornerTable.CornerVoltages: starts from a freshly zeroed corner array, as every pass allocates one; a scaling over fuse corners less than a megahertz apart divides by zero, which gives 0 on arm64.
- Quotients.QuotientsRiseIff: takes fused quotients below 2^29 and adjustments within 2^30, far from the ends of `int`.
- EndToEnd.ApmSplits: takes an APM threshold above 0 and a hysteresis of at least 0, as the OSM driver and every descriptor have them.
- MemAcc.CustomisedIncreasing: takes a first row of level 1 at most, which the source's notes promise; with a higher first row the first recorded corner is -1.
- OsmProgram.Cluster.CprhInit: one pass is its environment's answers; `CprhPass.Compute` computes that pass from the corner data.
- OsmProgram.Cluster.WriteTable: takes the row words and their number, which `CprhPass.Compute` computes.
- Arming.ArmingIsSafe: a cluster runs one set-up call at a time, as its policy is initialised by one CPU; clusters interleave at every single action.
- Removal of a failed pass's OPP table, device-tree and nvmem reading, power-domain attach, allocation, clocks, delays, debugfs and printing: inputs, or calls that may fail.
- Droop FSM exclusion of patch 0013: the FSMs to enable are a parameter of the SoC, with both SoCs' values.
- The cycle counter set-up, the OSM microcode arrays and the policy tuning of the vendor driver.
- Vendor.ClkOsm.Probe: ends at an access outside an array (`OutOfBounds`), after which the source has no defined behaviour.
- Vendor.ClkOsm.ProgramMemAcc: the variant without a secure monitor is not modelled.
- Refinement.SameImage: takes tables of 2 to 40 rows, because the new driver refuses one row (`Refinement.OneRowRefused`).
- The rest of read_lut() (cpufreq table construction) is not part of this model: only its field extraction is in the repository.
- The meaning of secure-monitor writes: each is a register write that may be refused.
- SHA1, zlib and dtc: SHA1 and inflation are function parameters, device-tree text starts from classified lines, whose values come as text and parsed cells.
- PhandleDiff.ShownAsOneTextIff: takes node paths without a closing brace, which no node name can contain.
- `str.strip`, Unicode digits in `pinctrl-` names, and other details of regular expressions.
- PNG depths below 8, mean and deviation, file access and command lines of the tools.
- Shell scripts, configuration, other patches of the series, and the regex-only device-tree scripts.
