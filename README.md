# High-altitude balloon trajectory model

A Dafny model of the numerical core of a set of Python scripts that predict
where a helium weather balloon goes. The model proves properties of that core.

The core has these parts:

- **Sounding columns** (`model.py`, `balloon.py`). The NOAA sounding rows become
  the height, pressure, temperature, humidity and wind columns. Pressure goes
  from mb to Pa. The humidity sentinel -999.0 becomes 0.
- **Atmospheric profile**:
  - the exponential pressure fit;
  - the polynomial temperature and humidity fits;
  - the humidity clamp, and in `model.py` the cutoff above the first
    zero-humidity sample;
  - wind speed and direction by piecewise-linear interpolation with flat
    boundaries, using the scripts' bracket-search loop;
  - the wind vector made from the direction.
- **Gas and force model**: humid-air molar mass, air density, balloon volume
  (the ideal-gas volume, capped at the full sphere), balloon density, and the
  buoyant, gravitational and drag forces. It also covers the neutral-buoyancy
  function and its report.
- **Trajectory loops**:
  - `model.py`'s wind-advection loop moves a mutable `Balloon` object
    horizontally with the wind and vertically by the terminal rise velocity,
    for 86400 one-second steps;
  - `balloon.py`'s Newtonian loop sums drag, buoyancy and weight into an
    acceleration over 20 one-second steps, and writes a trajectory file.
- **API permission and response logic** (`ex_api.py`):
  - the role → permission list, built with a duplicate-free append;
  - the `hasAccess` decision;
  - the ordered checks of `convertResponse`;
  - the parameter checks and pagination of the scene search.
- **Request form** (`gui.py`): the leap-year rule, date validation, the day
  list offered for a month, and the order of the form's checks.
- **Particle file** (`parse.py`):
  - tokenising each line;
  - the accumulation loop over records, extrema and totals;
  - the averages;
  - the name of the summary file.
- **Coordinate entry** (`earthdata.py`): decimal degrees to degrees, minutes and
  seconds, and the hemisphere letters.
- **NOAA table extraction** (`ncep_scraper.py`): the non-greedy `<tr>` and `<td>`
  regular-expression captures over the table text, and the conversion of the
  data rows.

How values are modelled:

- Python floats are Dafny `real`s.
- Formulas the code evaluates once are functions.
- The scripts' loops are methods, with invariants, that are proved against
  those functions.
- `exp`, `sin`, `cos` and `sqrt` are fields of an `Oracle` parameter.
  `Common.Sound` states the only facts about them that the model uses:
  - `exp` is positive and strictly increasing;
  - `sqrt` of a non-negative number is its non-negative square root.
- NaN is modelled where the formulas divide by zero. `Gas.Computable` holds at
  a height where the temperature is nonzero, the humidity is not 1, and the
  mole-fraction denominator of `molar_mass_humid_air` is nonzero. At any other
  height numpy's division gives NaN or an infinity instead of raising, and
  NaN spreads to every later number:
  - in `Advection`, the step and every later position are `None`;
  - in `Newtonian`, the iteration is `NotANumber` and every later line is a
    NaN line.

  `Profile.DefinedAt` (temperature positive, humidity below 1) implies
  `Computable` and gives the positivity facts of the densities and forces.
- The fitted coefficients (`curve_fit`, `np.polyfit`) and the `fsolve`
  estimate are inputs (`Profile.Fit`, the `estimate` parameter).
- Python's `int()` and `float()` on a string are the parameters `toInt` and
  `toFloat`. They return `None` where Python raises `ValueError`.

Where the system's documented design and the code disagree, the model
follows the code:

- The balloon scripts read seven-column rows, with wind speed and direction at
  indices 5 and 6, not six-tuples.
- The Newtonian loop replaces the velocity with `a·dt` instead of adding it
  (balloon.py:288-290).
- Drag is applied along the velocity relative to the wind, not against it
  (balloon.py:254, 262).
- The step sizes, run lengths and iteration counts are constants in the code
  (model.py:323-324, balloon.py:245, 248), not options.
- `model.py` rebinds the name `predict_pressure` to a Keras network at
  model.py:182. The model keeps the exponential definition of model.py:135-136
  for the force functions.

## Model

| member | source | states |
|---|---|---|
| Interpolation.FirstAtOrAbove | model.py:212-216 | the loop's `index`: 0 when no height from `i` on reaches `h`, else the first such index, with every height before it below `h` |
| Interpolation.BracketFound | model.py:212-216 | strictly between the first and last heights, the search finds `k >= 1` with `height[k-1] < h <= height[k]` |
| Interpolation.Interpolate | model.py:207-220 | the bracket-search loop with its early returns computes the reference interpolant |
| Interpolation.Interpolant | model.py:207-211 | at or below the first height the value is the first sample; above the first and at or beyond the last height it is the last sample (no extrapolation) |
| Interpolation.BetweenBracket | model.py:212-220 | inside the range, the value is the line through the bracketing samples, written as slope/intercept in the code, and lies between those two samples |
| Interpolation.ExactAtSamples | model.py:207-220 | with strictly increasing heights, the interpolant at a sample height is that sample's value |
| Sounding.BuildColumns | model.py:56-61 | the columns exist exactly when every row has at least seven entries; each column is the row entry it reads, pressure × 100, and humidity -999.0 → 0 with other values unchanged |
| Sounding.NormalizeHumidityIdempotent | model.py:59 | normalising the humidity twice changes nothing, and never leaves the sentinel |
| Sounding.BalloonTableShape | balloon.py:49-66 | the built-in table has 18 readable rows with the listed heights; rows 9-17 hold the humidity sentinel and rows 0-8 a positive humidity |
| Sounding.BalloonTableColumns | balloon.py:49-74 | the built-in table's heights are strictly increasing, its sentinel humidities become 0, and the rest are kept |
| Profile.CubicForm | balloon.py:110-111 | four coefficients give `a h³ + b h² + c h + d` |
| Profile.QuarticForm | model.py:145-146 | five coefficients give `a h⁴ + b h³ + c h² + d h + k` |
| Profile.PredictPressure | model.py:135-136 | `p0 · exp(-h / H)` is positive |
| Profile.PressureDecreasing | model.py:135-136 | the predicted pressure strictly decreases with height |
| Profile.PredictTemp | model.py:145-146 | five coefficients give the quartic of `model.py`; four give the cubic of balloon.py:110-111 |
| Profile.PredictSpecificHumidity | model.py:162-164 | the humidity is never negative, and is either 0 or the value of the fitted cubic |
| Profile.HumidityClamped | model.py:162-164 | the humidity is never negative; it is 0 above the cutoff and where the cubic is negative, and the cubic's value otherwise |
| Profile.FirstZero | model.py:156 | the index of the first zero humidity, or none when there is no zero (the IndexError) |
| Profile.HumidityFitSamples | model.py:156-159 | the fit uses the rows strictly before the first zero, and none of them is zero |
| Profile.ModelProfile | model.py:156-164 | a `model.py` profile exists exactly when some humidity is 0 and the first one is not (a zero first row leaves `np.polyfit` no points to fit); its cutoff is the height of the first zero |
| Profile.BalloonProfile | balloon.py:121-126 | a `balloon.py` profile has no height cutoff |
| Profile.BalloonHumidityNoCutoff | balloon.py:124-126 | the `balloon.py` humidity clamps only negative cubic values to 0, at every height |
| Profile.PredictWindSpeed | model.py:207-220 | the wind speed is the interpolant of the wind-speed column |
| Profile.PredictedWindDirection | model.py:226-239 | the wind direction is the interpolant of the direction column |
| Profile.VectorizeWindDirection | model.py:243-244 | the wind vector is `(-cos((d+90)π/180), -sin((d-90)π/180), 0)` |
| Profile.PredictWindVelocity | model.py:332 | the wind velocity is speed × direction vector, with zero vertical component |
| Profile.BalloonTableWindExact | balloon.py:133-163 | on the built-in table both wind predictors return the listed sample at each sample height, and the first and last samples outside the range |
| Profile.BalloonTableWellFormed | balloon.py:49-126 | the built-in table with cubic fits and a positive pressure fit meets every condition the force functions ask of a profile |
| Gas.Balloon.constructor | model.py:23-40 | the constructor stores the sizes and masses and derives the moles of helium, area `πr²` and drag coefficient; the balloon starts at (0, 0, 1) and at rest |
| Gas.FullVolumePositive | model.py:152 | the full volume `4/3 π r³` is positive |
| Gas.MolarMassHumidAir | model.py:257-261 | dry air (`q = 0`) has the molar mass of dry air |
| Gas.VapourFractionBounds | model.py:258-259 | for `0 <= q < 1` the vapour mole fraction is in [0, 1), and it is 0 exactly when `q` is 0 |
| Gas.MolarMassBetween | model.py:257-261 | for `0 <= q < 1` the molar mass is the mole-fraction mix of dry air and vapour, lies in (vapour, dry air], and equals dry air exactly at `q = 0` |
| Gas.MolarMassDecreasing | model.py:257-261 | more humid air is lighter: the molar mass strictly decreases in `q` |
| Gas.MolarMassPositive | model.py:257-261 | for `0 <= q < 1` the molar mass is positive |
| Gas.DefinedIsComputable | model.py:257-292 | where the temperature is positive and the humidity below 1, no formula divides by zero |
| Gas.PredictAirDensity | model.py:288-289 | the air density is positive wherever the temperature is positive and the humidity below 1 |
| Gas.BalloonVolumeAtHeight | model.py:283-285 | the volume never exceeds the full volume, and equals `nRT/P` whenever that does not exceed it |
| Gas.VolumeSign | model.py:283-285 | the volume is positive exactly when the temperature is, and 0 exactly when the temperature is 0 |
| Gas.PredictBalloonDensity | model.py:291-292 | the balloon density is positive exactly when the temperature is |
| Gas.BouyantIsNetOfGasWeight | model.py:294-295 | the buoyant force is the weight of the displaced air minus the weight of the helium |
| Gas.BouyantForce | model.py:294-295 | where the temperature is positive and the humidity below 1, the buoyant force is positive exactly when the air is denser than the balloon |
| Gas.GravitationalForce | model.py:297-298 | the weight is `g (mass_balloon + mass_payload)`, positive for a physical balloon |
| Gas.DragForce | model.py:301-302 | with no relative speed there is no drag |
| Gas.DragSign | model.py:301-302 | drag is non-negative and 0 exactly when the relative speed is 0 |
| Gas.NeutralBuoyancyBalance | model.py:306-308 | the neutral-buoyancy function is 0 exactly when the displaced air weighs as much as helium, envelope and payload together |
| Gas.NetLift | model.py:306-308 | the net lift is strictly below the buoyant force: the weight it subtracts is positive |
| Gas.ReportNeutralBuoyancy | model.py:313-317 | the report carries the given root estimate, the volume there (capped at the full volume) and the full volume |
| Advection.TerminalRiseVelocity | model.py:339-343 | the terminal rise velocity is never negative |
| Advection.Velocity | model.py:332-343 | the velocity of a step exists exactly at heights where the formulas are computable (elsewhere the buoyant force is NaN) |
| Advection.Step | model.py:345-347 | a step is defined exactly where the field is, and then moves the position by the field's velocity times the step |
| Advection.Drift | model.py:329-347 | no steps leave the start; the position is lost only through a step |
| Advection.Path | model.py:345-349 | the path has one line per step |
| Advection.Clock | model.py:329-330 | the clock has one entry per step |
| Advection.Heights | model.py:351 | the height column has one entry per line |
| Advection.LostIsFinal | model.py:332-347 | once the height is NaN every later position is NaN |
| Advection.NeverLost | model.py:332-347 | a flight whose formulas are computable at every height from its start upwards is defined after every step |
| Advection.UpwardField | model.py:339-347 | wherever the flight's field is defined it does not point down |
| Advection.TerminalVelocityBalance | model.py:339-343 | it is 0 exactly when the net lift is not positive; otherwise its square times `Cd·A` is the net lift |
| Advection.TerminalDragIsHalfDensityTimesLift | model.py:339-343 | at the terminal velocity the drag formula gives `0.5·ρ·lift`, not the lift: the terminal formula leaves out the `0.5·ρ` factor of the drag formula |
| Advection.HeightNeverDecreases | model.py:345-347 | in a field that never points down, a position defined after `j` steps was defined after every `i <= j` steps, at no greater height |
| Advection.GroundedStaysAtHeight | model.py:345-347 | when the field is defined with vertical component 0 at the start height, every step is defined and keeps that height |
| Advection.NoWindNoDrift | model.py:345-346 | in a field with no horizontal component, x and y never change while the position is defined |
| Advection.PathPositions | model.py:345-349 | the j-th line written is the position after j + 1 Euler steps |
| Advection.Advance | model.py:332-347 | one step is lost at a height that is not computable, and otherwise moves the position by the wind velocity and the terminal rise velocity times the step |
| Advection.Move | model.py:345-347 | the tracer's position becomes the stepped position, or stays when the step is lost; its velocity fields are untouched |
| Advection.PlotTrajectory | model.py:319-365 | the loop records `total_time // time_step` heights and times; the times are the clock, the lines are the Euler path (NaN from the first lost step on), the heights are its z column, and the tracer ends at the path's last point when that is defined |
| Advection.ClockEntries | model.py:329-330 | entry `i` of `times` is `i · time_step` |
| Advection.HeightsEntries | model.py:351 | entry `i` of `heights` is the height on line `i` |
| Advection.DayOfSeconds | model.py:323-329 | the loop runs 86400 times |
| Advection.FieldComponents | model.py:332-343 | at a computable height the field is defined: the wind horizontally and a non-negative rise vertically, 0 exactly where the net lift is not positive |
| Advection.FlightHeightNeverDecreases | model.py:339-347 | over a flight the height never decreases while it is defined |
| Advection.StepThroughField | model.py:345-347 | through a field defined and not pointing down at the start, one step rises exactly when the vertical component is positive and moves x and y by the field times the step |
| Advection.StepMotion | model.py:340-347 | a step is lost exactly at a height that is not computable; otherwise it rises exactly under positive net lift and keeps its height otherwise, and x and y change by exactly wind × step |
| Advection.FlightGroundedStaysAtHeight | model.py:340-347 | a flight starting at a computable height where the net lift is not positive never leaves that height |
| Advection.StillAirNoDrift | model.py:345-346 | with an all-zero wind-speed column the balloon never moves horizontally while its position is defined |
| Advection.ZeroColumnZeroSpeed | model.py:207-220 | an all-zero wind-speed column interpolates to 0 at every height |
| Newtonian.TotalMass | balloon.py:280 | the divisor `mass_helium + mass_balloon + mass_payload` is positive |
| Newtonian.RelativeVelocity | balloon.py:251-254 | the relative velocity added to the wind gives the balloon's velocity, and keeps its vertical component |
| Newtonian.DragVector | balloon.py:256-262 | the drag vector's length is the drag magnitude |
| Newtonian.NetForce | balloon.py:262-278 | horizontally the net force is the drag vector; vertically it is the drag plus the net lift |
| Newtonian.NewtonStep | balloon.py:251-290 | an iteration raises the domain error exactly under negative net lift at a computable height, and turns to NaN exactly at a height that is not computable or, with the lift not negative, at zero relative velocity |
| Newtonian.HaltedIsFinal | balloon.py:248-275 | after the exception nothing more happens: the run stays at the same halt, with the same last motion, and the file stops growing |
| Newtonian.UndefinedIsFinal | balloon.py:248-293 | once the numbers are NaN they stay NaN |
| Newtonian.RecordLength | balloon.py:243-293 | a run that has not raised has written the header, the start position and one line per iteration |
| Newtonian.RecordGrows | balloon.py:293 | the file only grows |
| Newtonian.UndefinedLines | balloon.py:262-293 | after NaN, every later iteration writes a NaN line |
| Newtonian.Iterate | balloon.py:251-290 | the loop body computes the reference iteration: the new position and velocity, NaN, or the domain error |
| Newtonian.Advance | balloon.py:249-293 | a loop iteration moves the phase one step and writes that step's line; the tracer is left at the new motion, or at the last tracked motion when the step raises |
| Newtonian.PlotNewtonianTrajectory | balloon.py:241-296 | the file is the header, the start and one line per iteration up to an exception; the run raises exactly when the reference run halts; the tracer ends at the final motion of a run that stays finite, and at the last tracked motion of a run that raises |
| Newtonian.CompletedRunLineCount | balloon.py:243-293 | a run without the exception writes 22 lines |
| Newtonian.DragAlongRelativeVelocity | balloon.py:253-262 | the drag vector has the drag's magnitude and points along the relative velocity: each component has the relative velocity's sign |
| Newtonian.SecondLaw | balloon.py:280-290 | after a step the velocity times the total mass is the net force, and the position moves by `v·dt + ½·a·dt²` with `dt = 1` |
| Newtonian.HaltsAtFirstStep | balloon.py:275 | a first step that raises leaves only the header and the start in the file |
| Newtonian.NaNAtFirstStep | balloon.py:262 | a first step that gives NaN makes every following line NaN |
| Newtonian.NegativeLiftAtLaunch | balloon.py:275 | under negative net lift at a computable start the run raises at the first iteration |
| Newtonian.SingularLaunch | balloon.py:251-293 | a start at a height that is not computable gives NaN from the first iteration on |
| Newtonian.StillAirAtRest | balloon.py:253-262 | a balloon starting at rest in still air, with lift not negative where the start is computable, gives NaN lines only |
| Newtonian.AtRestInStillAir | balloon.py:253-256 | at rest in still air the squared relative speed is 0 |
| Permissions.RoleNames | ex_api.py:223-225 | each role becomes its name, in order (a string as-is, an object by `getName()`) |
| Permissions.Added | ex_api.py:264-266 | the item is in the list after the call, which grows by at most one |
| Permissions.PermissionList.constructor | ex_api.py:227 | the permission list starts empty |
| Permissions.PermissionList.Add | ex_api.py:264-266 | `addToPermissions` updates the caller's list to the duplicate-free append |
| Permissions.AddedFacts | ex_api.py:264-266 | the item is in the result, the old list is a prefix, nothing else is added, and a distinct list stays distinct |
| Permissions.AddedIsAppendIfAbsent | ex_api.py:264-266 | adding appends exactly when the item is absent |
| Permissions.AddedAllFacts | ex_api.py:227-262 | adding many keeps the old list as a prefix, contains exactly the old items and the grants, and keeps the list distinct |
| Permissions.AddMachineGrants | ex_api.py:236-261 | without 'Developer', the five role checks build the reference list in place |
| Permissions.GetPermissionListForRoles | ex_api.py:222-262 | the method returns the reference permission list of the roles' names |
| Permissions.DeveloperList | ex_api.py:228-235 | the developer branch adds its seven grants in order |
| Permissions.FirstOccurrenceOrder | ex_api.py:236-262 | adding a grant list gives its distinct items in first-occurrence order |
| Permissions.MachineRolesUnion | ex_api.py:236-262 | without 'Developer', the result is exactly the union of the grants of the roles present |
| Permissions.DeveloperGrant | ex_api.py:228-262 | 'developer' is granted exactly when 'Developer' is a role |
| Permissions.DeveloperExact | ex_api.py:228-235 | with 'Developer' the result is exactly `[application, bma, dds, developer, download, order, tram]` |
| Permissions.PermissionsFor | ex_api.py:227-266 | the permission list has no duplicate and holds exactly the requested grants |
| Permissions.ListGrants | ex_api.py:297-315 | given a list, access is granted exactly when it holds 'developer', or when the permission is one of the five checked ones and is in the list |
| Permissions.HasAccess | ex_api.py:268-315 | '*' is always granted; with a key but no identity only '*' is; '@' is granted with an identity or without a key; any other permission is decided by the roles' list with a key and an identity, and without a key by the permission list that the unmodelled base64 branch decodes (the input `keyPermissions`) |
| Permissions.UncheckedOnlyViaDeveloper | ex_api.py:297-315 | a permission outside the five checked ones ('bma', say) is granted only by 'developer' |
| Permissions.IdentityAccess | ex_api.py:275-315 | with a key and an identity, any other permission is granted exactly when the roles include 'Developer' or the permission is checked and in the roles' list |
| Responses.FirstMissing | ex_api.py:73-86 | the first key missing from the dictionary in the check order, or none when all are present |
| Responses.FirstMissingRequired | ex_api.py:73-86 | the keys are checked as errorCode, errorMessage, data, requestId, version |
| Responses.MissingKeyFirst | ex_api.py:73-86 | a missing key raises the API error naming the first missing key, before the errorCode check |
| Responses.Accepted | ex_api.py:73-91 | the response is returned exactly when no key is missing and errorCode is None, and then unchanged |
| Responses.ConvertResponse | ex_api.py:64-91 | a body that decodes to JSON null gives the client error 'Unable to parse JSON response from API'; a returned response is the decoded dictionary, unchanged, holding every required key |
| Responses.ServerError | ex_api.py:88-89 | a string errorCode and a string errorMessage raise the client error `code: message` |
| Responses.ServerTypeError | ex_api.py:88-89 | a non-null errorCode with a code or message that is not a string raises a TypeError in the concatenation |
| SceneSearch.Normalise | ex_api.py:393-427 | the parameters pass exactly when metadataType and sortField are allowed values or None and sortDirection is not None; a bad metadataType is reported before a bad sortField; on success maxResults is 100, startingNumber 1, sortDirection 'DESC', sortField defaults to 'acquisitionDate', and 'summary' becomes 'res_sum'; with both allowed, a missing sortDirection gives the no-sort-direction error |
| SceneSearch.Paginate | ex_api.py:455-463 | no results gives (0, 0); otherwise the start is kept, and nextRecord is `start + returned` when that is below totalHits, else totalHits |
| SceneSearch.RunStable | ex_api.py:393-480 | a response exists exactly when the parameters pass and the search ran, and a parameter error is raised whatever the search would return; a failed search gives the search error; the response carries the results, their count, the hits, the excluded count (0 when the lookup failed), and record numbers that are the pagination of a page starting at record 1 |
| Calendar.IsLeapYear | gui.py:13-23 | the nested conditionals are the Gregorian rule |
| Calendar.DaysInMonth | gui.py:37-49 | the month length is 28 to 31 days |
| Calendar.ValidateDate | gui.py:26-53 | a field that `int()` rejects makes the date invalid instead of raising; a parsed date is valid exactly when the month is 1..12 and the day is at most its length, with no lower bound on the day and no range check on the year |
| Calendar.Range | gui.py:166 | `range(lo, hi)` lists `lo .. hi-1` |
| Calendar.UpdateDays | gui.py:160-177 | a day list is offered exactly when year and month parse and are nonzero; it is `1 .. n` with `n` from 28 to 31 |
| Calendar.OfferedDaysAreValid | gui.py:160-177 | for a real month the days offered are 1 to the month's length, so a positive day is offered exactly when it is valid |
| Calendar.OutOfRangeMonth | gui.py:165-166 | a nonzero month outside 1..12 still offers 31 days, and none is valid |
| Calendar.SubmitForm | gui.py:105-120 | the checks run in the code's order and the first failure decides: an empty field gives the fill message; then an invalid date gives the date message; then an unparsable hour raises and a hour not a multiple of 6 gives the hour message; then the same for the latitude (strictly between -90 and 90), then for the longitude (strictly between -180 and 180); the form starts a retrieval exactly when all fields are filled, the date is valid, the hour is a multiple of 6 and the coordinates are strictly inside their ranges; it raises only when the hour or a coordinate does not parse |
| Calendar.NegativeHourAccepted | gui.py:109-110 | example: the hour -6 passes the hour check |
| Text.LeadingSpaces | parse.py:35 | the count of leading whitespace characters, stopping at the first other one |
| Text.TrailingSpaces | parse.py:35 | the count of trailing whitespace characters, stopping at the last other one |
| Text.DropSpaces | parse.py:35 | leading whitespace removed: a suffix, all whitespace before it, not starting with whitespace |
| Text.Collapse | parse.py:35 | `re.sub(r'\s+', ' ', s)` never lengthens the string |
| Text.CollapseWords | parse.py:35 | `re.sub(r'\s+', ' ', s)` keeps the words of `s`, in order |
| Text.CollapseCollapsed | parse.py:35 | `re.sub(r'\s+', ' ', s)` leaves only single spaces as whitespace, is empty exactly when `s` is, and starts, and ends, with whitespace exactly when `s` does |
| Text.CollapseBlank | parse.py:35 | collapsing keeps a string blank exactly when it was blank |
| Text.Strip | parse.py:35 | `strip()` is a slice of the string with only whitespace before and after it, has no whitespace at either end, and is empty exactly for a blank string |
| Text.StripWords | parse.py:35 | `strip()` keeps the words |
| Text.StripCollapsed | parse.py:35 | stripping a collapsed string keeps it collapsed |
| Text.Split | parse.py:37 | `split(sep)` gives at least one piece and no piece contains `sep` |
| Text.JoinSplit | parse.py:37 | joining the pieces with `sep` gives the string back |
| Text.SplitNoEmptyPiece | parse.py:37 | with no doubled, leading or trailing `sep` no piece is empty |
| Text.SplitCollapsedWords | parse.py:37 | splitting a collapsed string with no space at either end at ' ' gives exactly its words |
| Text.WordsNone | parse.py:35-37 | a string has no words exactly when it is blank |
| Text.WordsNoSpace | parse.py:35-37 | no word holds whitespace |
| Text.WordsConcat | parse.py:35-37 | the words, joined again, are the non-whitespace characters of the string in order |
| Text.Tokens | parse.py:35-37 | a non-blank line gives exactly its words (the maximal non-whitespace runs, in order), so its tokens are non-empty; no token holds whitespace, and a blank line gives the single empty token |
| Particles.Read | parse.py:39-52 | a line is readable exactly when it has three tokens that convert; it carries a diameter (sized or complete) exactly when also the fourth converts by `int()` and the fifth converts; it is complete exactly when also the sixth converts; each kind carries the converted x, y, z, diameter and density |
| Particles.Readings | parse.py:33-37 | each line is tokenised and read in order |
| Particles.UpdateExtrema | parse.py:54-65 | the six comparisons update the extrema as the reference does, `zMax` taking `y` |
| Particles.AccumulateLine | parse.py:38-73 | the `try` block extends the accumulators as far as its conversions get |
| Particles.Samples | parse.py:33-73 | there is at most one sample per line |
| Particles.Parse | parse.py:33-75 | the loop gives the accumulation of all lines; the averages are the totals over the count, or none for a file without a complete line (ZeroDivisionError) |
| Particles.Average | parse.py:74-75 | the average counted `count` times makes the total |
| Particles.AccumulatedFacts | parse.py:41-70 | `len(all_x) = len(all_y) = len(all_z) >= len(all_diameter) >= particle_count`; the count, totals and extrema are those of the complete lines |
| Particles.MaximumMeaning | parse.py:54-59 | a running maximum bounds every value from above and is one of them, or `-inf` for none |
| Particles.MinimumMeaning | parse.py:56-65 | a running minimum bounds every value from below and is one of them, or `inf` for none |
| Particles.RecordedValue | parse.py:62-63 | a maximum that records another field still holds a value of that field |
| Particles.ExtremaMeaning | parse.py:54-65 | every complete line lies in `[xMin, xMax]` and `[yMin, yMax]` and at or above `zMin`; `zMax` is some line's `y` |
| Particles.ZMaximumIsAY | parse.py:62-63 | example: for the line `0 1 2 ...` the `zMax` is 1, not the z value 2 |
| Particles.OutputName | parse.py:79 | the name exists exactly when the path has an underscore, and is `system_properties_` + the text after the first `_` up to the next `.` or `_` + `.txt`; that middle part has neither |
| Particles.OutputNameOfParts | parse.py:79 | `prefix_middle.ext` gives `system_properties_middle.txt` |
| Particles.InputSummaryName | parse.py:120-122 | example: `./particle_input.dat` gives `system_properties_input.txt` |
| Coordinates.Trunc | earthdata.py:11-13 | `int()` on a float truncates toward zero |
| Coordinates.DecimalToDms | earthdata.py:10-15 | the minutes are whole in 0..59, the seconds in [0, 60), and the degrees are the truncation with the coordinate's sign |
| Coordinates.DmsRoundTrip | earthdata.py:10-15 | `d + m/60 + s/3600` is the coordinate at or above 0, and `d - m/60 - s/3600` below 0 |
| Coordinates.SignLostNearZero | earthdata.py:11-15 | between -1 and 0 the degrees are 0, and the result is that of the opposite coordinate |
| Coordinates.EntryRoundTrip | earthdata.py:54-63 | the letters are N and E exactly at or above 0, and the entries read with their letters give both coordinates back |
| Scraper.ScanCloseFirst | ncep_scraper.py:39 | the lazy `(.*?)` stops at the first closing tag, and finds none exactly when every later closing tag has a newline before it |
| Scraper.ScanCloseOnOneLine | ncep_scraper.py:39 | a capture never crosses a newline |
| Scraper.ScanClose | ncep_scraper.py:39 | the position of the close that ends a lazy `(.*?)` capture lies at or after the capture's start and inside the text |
| Scraper.NextMatch | ncep_scraper.py:39 | a match starts with the opening tag at or after the search position and its close is the first one found |
| Scraper.NextMatchLeftmost | ncep_scraper.py:39 | the match found is the leftmost one, and there is none exactly when no position from there on matches |
| Scraper.Spans | ncep_scraper.py:39 | all matches lie after the start, inside the text |
| Scraper.CaptureAt | ncep_scraper.py:39-44 | the k-th capture is the text between the k-th match's tags |
| Scraper.Captures | ncep_scraper.py:39 | `findall` gives one capture per match |
| Scraper.FindAll | ncep_scraper.py:39 | `re.findall` gives one capture per match, none holding a newline |
| Scraper.SpanSearched | ncep_scraper.py:39 | each match is the next one found after the previous match ends (non-overlapping, left to right) |
| Scraper.SpansEnd | ncep_scraper.py:39 | after the last match no further match is found |
| Scraper.SpansLeftmost | ncep_scraper.py:39 | each match is leftmost from where the previous one ended, and after the last one no position matches |
| Scraper.SpanOnOneLine | ncep_scraper.py:39 | a match's capture holds no newline |
| Scraper.CapturesOnOneLine | ncep_scraper.py:39 | no capture of the matches holds a newline |
| Scraper.Convert | ncep_scraper.py:45 | a converted row has one value per cell |
| Scraper.ConvertMeaning | ncep_scraper.py:45 | a row converts exactly when every stripped cell converts, and then gives each cell's value in order |
| Scraper.RetrieveTable | ncep_scraper.py:32-58 | a failed request or non-200 status gives nothing; no `<tr>` row gives the IndexError; a non-numeric cell below the first row gives the ValueError; otherwise the header is the first row's `<td>` captures and `data` has one converted row per later row, in order |

## Left out

- Network access, the HTTP request and BeautifulSoup (ncep_scraper.py:5-36,
  gui.py `retrieve_table`, model.py:50-53). The table text and the sounding
  rows are inputs. In `Scraper.RetrieveTable` a raised `RequestException` is
  the `Failed` response.
- The `json.loads` call of `convertResponse` (ex_api.py:65). The decoded
  dictionary is the input, and `None` stands for a JSON `null`. A body that
  is not valid JSON makes `json.loads` raise `JSONDecodeError` before any
  check runs; that path is not modelled, and neither is a body that decodes
  to a JSON value other than an object or null.
- `RequestService.dispatchRequest`, `authenticate`, `logout`, `IpManager`, and
  the logger call in `hasAccess`: these are network or logging with no decision
  logic.
- The base64 branch of `hasAccess` (ex_api.py:288-291). It decodes an `apiKey`
  that is None there; its permission list is the input `keyPermissions`.
- `Search.runStable`'s collaborators (`DatasetRepository`,
  `DatasetAccessManager`, `SceneListRepository`; ex_api.py:437-453, 466-471).
  They are undefined in the source. Their results are inputs: the results and
  hit count (`None` for the SEARCH_ERROR), and the excluded count (`None` when
  that lookup fails).
- The Keras and StandardScaler blocks and the rebinding of `predict_pressure` at
  model.py:182: machine learning outside the numerical core. Pressure is the
  exponential fit.
- `curve_fit`, `np.polyfit` and `fsolve`: numerical fitting and root finding.
  Their results are inputs.
- IEEE floating point: rounding, overflow, and NaN or infinities other than
  those of a division by zero (see `Gas.Computable` above, and the 0/0 of the
  Newtonian drag vector).
  - `Coordinates.DmsRoundTrip` and `Coordinates.DecimalToDms` hold exactly over
    the reals only.
  - `Newtonian.NewtonStep` does not model a NaN or infinity that arises from
    overflow. It does not tell an infinite coordinate apart from NaN: at a
    step that divides by a zero temperature the source can write `inf`, and
    the model writes a NaN line either way.
  - `Newtonian.NewtonStep` and `Newtonian.Iterate` decide a height that is not
    computable before any force. The source evaluates the forces and prints
    them first, with the same outcome.
- Advection.Move: on the step where the height becomes NaN the source still
  adds the finite wind to x and y. The model reports that line as lost
  (`None`) and leaves the tracer's fields as they were, because they cannot
  hold NaN. Every later line of the source is NaN in all three coordinates.
- Newtonian.PlotNewtonianTrajectory: after a step that gives NaN, the
  source's tracer holds NaN values. The model cannot store NaN in the tracer's
  fields. It leaves them at the last finite motion and promises nothing about
  them on such a run.
- Profile.ModelProfile: a first humidity row of 0 gives no profile. The
  source would call `np.polyfit` on empty slices there and raise.
- `exp`, `sin`, `cos` and `sqrt`: only the facts in `Common.Sound` are
  modelled.
- Plotting (matplotlib), the `print` calls, `str()` formatting of numbers, and
  opening, writing and closing files. The trajectory and summary files are the
  returned sequences of lines. The `.png` name in parse.py:113 is not modelled.
- The tkinter widgets, `display_table_in_gui`, and the thread started by
  `submit_form` (gui.py:119-120). `Calendar.SubmitForm` returns the message,
  `Raised`, or `Accepted`.
- Calendar.UpdateDays: the day list is integers rather than the strings that
  `str(i)` makes.
- `clickAddCoordinate`'s browser steps (earthdata.py:18-101), the selenium
  scripts, the cloud-export scripts, and the unused m2m client. These are
  browser automation and service calls.
- Text.IsSpace: the fixed set of whitespace characters that Python recognises.
  There is no Unicode database, case folding or normalisation.
- Scraper: only the three fixed patterns are modelled. They are a literal tag,
  a lazy `(.*?)` whose `.` does not match a newline, and a literal closing tag.
  General regular expressions are not part of this model.
- Advection.PlotTrajectory: the velocity fields `vx, vy, vz` are stated to be
  unchanged. The source never reads them in this loop.
- The unused constants `popping_pressure_difference`, `DENSITY_AIR` and
  `density_at_room_temp`.
- Credentials hard-coded in the source are not reproduced.
