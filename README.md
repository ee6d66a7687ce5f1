# Key bindings and DSP bookkeeping, in Dafny

This project models two parts of a digital audio workstation and proves
properties of them.

**Key and mouse binding tables** (`Gtkmm2ext::Bindings`, libs/gtkmm2ext/bindings.cc):

- A `KeyboardKey` or `MouseButton` packs a modifier state and a key or button code
  into one 64-bit value.
- Key names such as `Primary-Tertiary-x` are parsed; button names such as
  `Secondary-3` are parsed and printed.
- A `Bindings` object owns four ordered maps from keys and buttons to action
  names: key press, key release, button press and button release.
- `add`, `remove`, `replace`, `relativize` and `load` update those maps in place.
- `activate` looks a key or button up and decides whether its action runs.

The ordered maps (`std::map`) are modelled as strictly sorted sequences of entries
(module `SortedMap`). "First in key order" is therefore index order, and map insert
does not overwrite an existing key. The tables are a value type, `Tables.Maps`, with
one function per operation and lemmas about those functions. The class
`BindingsObject.Bindings` holds the four tables as fields. Each of its methods is
proved to leave exactly the state its function describes, and to keep the invariant
that no action name is bound twice in one key table.

**The discrete core of `ARDOUR::DSP`** (libs/ardour/dsp_filter.cc):

- the in-place buffer routines `memset` and `mmult`;
- the one-pole `LowPass` and the `Biquad` filters: their state, their coefficient
  storage, the Q and frequency clamps of `compute`, and the reset of state
  registers that are not finite and normal;
- the buffers of `FFTSpectrum`;
- the bookkeeping of `PerceptualAnalyzer`: the input cursor, the leaky power trace,
  the peak meter and the peak-hold or running-average trace with its saturating count;
- the noise `Generator`: its Park–Miller "minimal standard" seed update in 32-bit
  arithmetic and the spare-value cache of its Gaussian source.

Samples are real numbers. The transcendental functions, the FFT and the all-pass
cascade are parameters: the model states which values they receive and where their
results go, not what they compute.

The foreign toolkit calls are passed in as parameters:

- the GDK key-name table and its case predicates (`Keys.Gdk`);
- the modifier masks of `Keyboard` (`Keys.Modifiers`);
- the action manager (`Tables.ActionManager`);
- whether a drag is in progress, as the `dragActive` parameter of `Tables.Maps.Activate`.

## Model

| member | source | states |
|---|---|---|
| Keys.Pack | libs/gtkmm2ext/bindings.cc:79-81 | the state is the high 32 bits of the packed value and the code the low 32 bits |
| Keys.PackInjective | libs/gtkmm2ext/bindings.cc:159-166 | two packed values are equal exactly when their states and codes are equal |
| Keys.NewKeyboardKey | libs/gtkmm2ext/bindings.cc:159-166 | a key keeps only the relevant modifier bits of the state, and its code unchanged |
| Keys.NewMouseButton | libs/gtkmm2ext/bindings.cc:64-82 | a button keeps the relevant modifier bits, without Shift exactly when its code is caseless; the code is unchanged |
| Keys.MakeKey | libs/gtkmm2ext/bindings.cc:319-372 | parsing fails exactly when the last name segment (lower-cased if one character) maps to VoidSymbol or 0; otherwise the key holds that keyval and the masks of the modifier words the text mentions |
| Keys.MakeButton | libs/gtkmm2ext/bindings.cc:84-116 | parsing never fails; the button number is `atoi` of the text after the last dash, reduced to 32 bits; the state is the masks of the modifier words mentioned, within the relevant mask, with Shift also dropped when the number has no case |
| Keys.ButtonNumber | libs/gtkmm2ext/bindings.cc:105-112 | the text after the last dash never reads as a negative number, and a number that fits in 32 bits is the button number unchanged |
| Keys.ButtonName | libs/gtkmm2ext/bindings.cc:118-156 | the printed name is the dash-joined list of the set modifier words followed by the decimal button number |
| Keys.AddPart | libs/gtkmm2ext/bindings.cc:128-145 | appending a word with a dash separator only after a non-empty string gives the dash-join of the parts plus that word |
| Keys.NameTextLastSegment | libs/gtkmm2ext/bindings.cc:147-153 | the text after the last dash of a printed button name is the decimal button number |
| Keys.MentionedOfNameText | libs/gtkmm2ext/bindings.cc:89-103 | the modifier words found in a printed name are exactly the modifiers that were printed |
| Keys.ModifierNamesWords | libs/gtkmm2ext/bindings.cc:125-145 | the printed modifier list contains each of the four words exactly when that modifier is set |
| Keys.MakeButtonOfName | libs/gtkmm2ext/bindings.cc:84-156 | parsing the printed name of a button gives back its number and the masks of the modifiers that were set |
| Keys.KeyNameOfLastChar | libs/gtkmm2ext/bindings.cc:349-360 | a one-character key name is looked up lower-cased |
| Keys.MakeKeyIgnoresCase | libs/gtkmm2ext/bindings.cc:347-372 | a key name whose last segment is one character parses the same whatever that character's case |
| Text.LastIndexOf | libs/gtkmm2ext/bindings.cc:105 | the index found holds the character and no later index does; none means the character does not occur |
| Text.Downcase | libs/gtkmm2ext/bindings.cc:358-360 | each character is mapped by `ToLower`, which lower-cases exactly `A` to `Z` |
| Text.FormatUnsigned | libs/gtkmm2ext/bindings.cc:151-152 | the `%u` text of a number is non-empty and all digits |
| Text.AtoiFormatUnsigned | libs/gtkmm2ext/bindings.cc:108-112 | `atoi` reads back the number that `%u` printed |
| Text.Atoi | libs/gtkmm2ext/bindings.cc:108-112 | text that is empty after white space reads as 0, and a negative value needs a leading '-' |
| SortedMap.IndexOf | libs/gtkmm2ext/bindings.cc:1162 | the index found holds the key; none exactly when the key is absent |
| SortedMap.Find | libs/gtkmm2ext/bindings.cc:1162 | a value is found exactly when the key is present |
| SortedMap.FindAt | libs/gtkmm2ext/bindings.cc:1162 | in a sorted table every entry is found at its own index, with its own value |
| SortedMap.Insert | libs/gtkmm2ext/bindings.cc:700-707 | insertion keeps the table sorted, leaves it unchanged when the key is present, and otherwise adds exactly the new entry |
| SortedMap.InsertFind | libs/gtkmm2ext/bindings.cc:700-707 | after insertion only an absent key changes its lookup, to the new value |
| SortedMap.EraseAt | libs/gtkmm2ext/bindings.cc:726-732 | erasing one position shifts the later entries down by one and keeps the table sorted |
| SortedMap.EraseAtFind | libs/gtkmm2ext/bindings.cc:726-732 | after erasing an entry only its key stops being found |
| SortedMap.EraseKey | libs/gtkmm2ext/bindings.cc:790-795 | erasing by key removes one entry when the key is present and nothing otherwise |
| SortedMap.EraseKeyFind | libs/gtkmm2ext/bindings.cc:790-795 | after erasing a key only that key stops being found |
| Tables.FirstNamed | libs/gtkmm2ext/bindings.cc:726-732 | the index found is the first in key order carrying the name; none exactly when no entry does |
| Tables.Resolve | libs/gtkmm2ext/bindings.cc:501-505 | the action stored with the entry is used when there is one; otherwise the action the `ActionManager` finds by the entry's name |
| Tables.Prefixed | libs/gtkmm2ext/bindings.cc:536-551 | every entry keeps its key and gets the prefix in front of its action name |
| Tables.Property | libs/gtkmm2ext/bindings.cc:1073-1076 | a property is found exactly when the node has it, with its value |
| Tables.Maps.WithKeymap | libs/gtkmm2ext/bindings.cc:1197-1207 | writing the key table of an operation changes that table only |
| Tables.Maps.WithMousemap | libs/gtkmm2ext/bindings.cc:1221-1231 | writing the button table of an operation changes that table only |
| Tables.Maps.GetKeymap | libs/gtkmm2ext/bindings.cc:1197-1207 | Press selects the press table and Release the release table |
| Tables.Maps.GetMousemap | libs/gtkmm2ext/bindings.cc:1221-1231 | Press selects the button-press table and Release the button-release table |
| Tables.Maps.EmptyKeys | libs/gtkmm2ext/bindings.cc:462-466 | holds exactly when no key is bound for either operation |
| Tables.Maps.EmptyMouse | libs/gtkmm2ext/bindings.cc:468-472 | holds exactly when no button is bound for either operation |
| Tables.Maps.Empty | libs/gtkmm2ext/bindings.cc:474-478 | holds exactly when neither a key nor a button is bound |
| Tables.Maps.IsRegistered | libs/gtkmm2ext/bindings.cc:1190-1195 | a name is registered exactly when the scan of `remove` finds an entry carrying it |
| Tables.Maps.Relativize | libs/gtkmm2ext/bindings.cc:536-551 | each of the four tables becomes its prefixed copy: same keys, every action name with the prefix in front |
| Tables.Maps.Load | libs/gtkmm2ext/bindings.cc:1034-1048 | the tables left by `load` are sorted maps again |
| Tables.Maps.IsBound | libs/gtkmm2ext/bindings.cc:1158-1170 | a name is returned exactly when the key is bound in the operation's table, and it is the bound action's name |
| Tables.Maps.AddKey | libs/gtkmm2ext/bindings.cc:693-718 | adding succeeds exactly when the name is not yet in the operation's key table; a refusal changes nothing, and the other tables never change |
| Tables.Maps.RemoveKey | libs/gtkmm2ext/bindings.cc:720-744 | removing succeeds exactly when the name is registered and then shrinks that key table by one; the other tables never change |
| Tables.Maps.Replace | libs/gtkmm2ext/bindings.cc:677-691 | replacing always succeeds and changes only the operation's key table; whether `kb` ends bound to the name is stated by ReplaceBinds and ReplaceOnOtherKey |
| Tables.Maps.AddButton | libs/gtkmm2ext/bindings.cc:778-785 | only an unbound button gains the action; every other lookup and table is unchanged |
| Tables.Maps.RemoveButton | libs/gtkmm2ext/bindings.cc:787-796 | only that button's lookup disappears; every other lookup and table is unchanged |
| Tables.Maps.Activate | libs/gtkmm2ext/bindings.cc:480-534 | an unbound key gives false; a bound key with no findable action gives true without firing; during a drag any action but `Escape` gives true without firing; otherwise (no drag, or an `Escape` action) a sensitive action fires and gives true, and an insensitive one gives false |
| Tables.Maps.ActivateButton | libs/gtkmm2ext/bindings.cc:747-776 | a button is handled exactly when it is bound, and its resolved action fires |
| Tables.Maps.LoadBinding | libs/gtkmm2ext/bindings.cc:1066-1094 | a child without an action, without a key and a button, or with an unparsable key changes nothing; otherwise its key or button binding is added |
| Tables.Maps.LoadOperation | libs/gtkmm2ext/bindings.cc:1050-1097 | only a `Press` or `Release` node is read, any other changes nothing |
| Tables.Maps.LoadBindings | libs/gtkmm2ext/bindings.cc:1063-1096 | reading the children of a `Press` or `Release` node one by one leaves sorted tables |
| Tables.Maps.LoadOperations | libs/gtkmm2ext/bindings.cc:1042-1045 | reading the children of the bindings node one by one leaves sorted tables |
| TableLemmas.InsertUnique | libs/gtkmm2ext/bindings.cc:696-707 | inserting a new name keeps the names of a table unique |
| TableLemmas.EraseUnique | libs/gtkmm2ext/bindings.cc:726-732 | erasing keeps the names unique and removes the erased name from the table |
| TableLemmas.AddKeyFind | libs/gtkmm2ext/bindings.cc:693-718 | a successful `add` changes only the lookup of its key, and only when that key was unbound: a bound key keeps its old action |
| TableLemmas.AddKeyValid | libs/gtkmm2ext/bindings.cc:696-698 | `add` keeps every key table free of duplicate names |
| TableLemmas.AddThenBound | libs/gtkmm2ext/bindings.cc:693-718 | adding a new name on a free key makes the key bound to it and the name registered |
| TableLemmas.RemoveKeyFind | libs/gtkmm2ext/bindings.cc:720-744 | `remove` deletes only the key of the first entry in key order carrying the name |
| TableLemmas.RemoveKeyValid | libs/gtkmm2ext/bindings.cc:720-744 | `remove` keeps names unique, and afterwards the name is no longer registered |
| TableLemmas.RemoveFreesKey | libs/gtkmm2ext/bindings.cc:720-744 | a key that held the removed name, or was free, is free afterwards |
| TableLemmas.ReplaceValid | libs/gtkmm2ext/bindings.cc:677-691 | `replace` keeps names unique |
| TableLemmas.ReplaceBinds | libs/gtkmm2ext/bindings.cc:677-691 | replacing on a free key, or on the name's own key, binds that key to the name; the key held by another name is ReplaceOnOtherKey's case |
| TableLemmas.ReplaceOnOtherKey | libs/gtkmm2ext/bindings.cc:677-691 | replacing on a key held by another name still gives true, but the key keeps its old binding (the insert of `add` does not overwrite) and the name, its old binding removed, is bound nowhere |
| TableLemmas.RelativizeValid | libs/gtkmm2ext/bindings.cc:536-551 | `relativize` keeps the tables sorted and their names unique |
| TableLemmas.PrefixedUnique | libs/gtkmm2ext/bindings.cc:539-550 | prefixing every name of a table keeps it sorted and its names unique |
| TableLemmas.RelativizeRegistered | libs/gtkmm2ext/bindings.cc:536-551 | after `relativize` the prefixed name is registered exactly when the old name was |
| TableLemmas.LoadBindingKeeps | libs/gtkmm2ext/bindings.cc:1066-1094 | reading one child keeps names unique and every existing button binding |
| TableLemmas.LoadValid | libs/gtkmm2ext/bindings.cc:1034-1048 | `load` leaves valid tables and keeps every button binding that existed before |
| TableLemmas.LoadClearsKeys | libs/gtkmm2ext/bindings.cc:1034-1048 | the key bindings `load` leaves are the same whatever the tables held before, since it clears the key tables first |
| TableLemmas.LoadWithoutOperations | libs/gtkmm2ext/bindings.cc:1034-1048 | a node with no `Press` or `Release` child leaves no key bound and the button tables as they were |
| BindingsObject.Bindings.constructor | libs/gtkmm2ext/bindings.cc:375-380 | a new object has its name and four empty tables |
| BindingsObject.Bindings.Add | libs/gtkmm2ext/bindings.cc:693-718 | the result and the new tables are those of `AddKey`, and the invariant holds |
| BindingsObject.Bindings.Remove | libs/gtkmm2ext/bindings.cc:720-744 | the scan in key order gives the result and tables of `RemoveKey` |
| BindingsObject.Bindings.Replace | libs/gtkmm2ext/bindings.cc:677-691 | returns true and leaves the tables of `Replace` |
| BindingsObject.Bindings.AddButton | libs/gtkmm2ext/bindings.cc:778-785 | leaves the tables of `AddButton` |
| BindingsObject.Bindings.RemoveButton | libs/gtkmm2ext/bindings.cc:787-796 | leaves the tables of `RemoveButton` |
| BindingsObject.Bindings.Relativize | libs/gtkmm2ext/bindings.cc:536-551 | every table's names get the object's name as prefix, keys unchanged, invariant kept |
| BindingsObject.Bindings.Load | libs/gtkmm2ext/bindings.cc:1034-1048 | returns true and leaves the tables of `Load`: key tables cleared first, then each child read in order |
| BindingsObject.Bindings.LoadOperation | libs/gtkmm2ext/bindings.cc:1050-1097 | leaves the tables of `LoadOperation` |
| BindingsObject.Bindings.LoadBindings | libs/gtkmm2ext/bindings.cc:1063-1096 | reading the children in document order leaves the tables of `LoadBindings` |
| BindingsObject.Bindings.LoadBinding | libs/gtkmm2ext/bindings.cc:1066-1094 | leaves the tables of `LoadBinding` |
| BindingsObject.PrefixNames | libs/gtkmm2ext/bindings.cc:539-550 | the rewritten table is the prefixed table |
| BindingsObject.ScanNamed | libs/gtkmm2ext/bindings.cc:726-732 | the loop over the table in key order stops at the first entry carrying the name, as `FirstNamed` finds it, or finds none |
| DspBuffers.Sanitize | libs/ardour/dsp_filter.cc:137-141 | a finite and normal value is kept; any other becomes 0 |
| DspBuffers.Memset | libs/ardour/dsp_filter.cc:44-50 | the first `n` samples hold the value and the rest are unchanged |
| DspBuffers.Mmult | libs/ardour/dsp_filter.cc:52-58 | each of the first `n` samples is multiplied by its factor, and the rest are unchanged |
| Filters.LowPassRun | libs/ardour/dsp_filter.cc:126-142 | one output per input, and the state is the last output |
| Filters.LowPassHoldsLevel | libs/ardour/dsp_filter.cc:126-142 | a signal equal to the filter state passes through unchanged |
| Filters.CtrlHoldsLevel | libs/ardour/dsp_filter.cc:144-155 | at the level where the step towards the target equals the state, `ctrl` on silence holds that level |
| Filters.CtrlRun | libs/ardour/dsp_filter.cc:144-155 | one output per sample, and the state after the run is the last output, or the old state for an empty buffer |
| Filters.CtrlRunPrefix | libs/ardour/dsp_filter.cc:144-155 | `ctrl` over a prefix of the buffer writes the prefix of the full output: each sample depends only on those before it |
| Filters.LowPass.constructor | libs/ardour/dsp_filter.cc:113-118 | the rate is stored, the state is 0, and the smoothing factor is `1 - exp (-2 pi freq / rate)` |
| Filters.LowPass.SetCutoff | libs/ardour/dsp_filter.cc:120-124 | only the smoothing factor changes |
| Filters.LowPass.Proc | libs/ardour/dsp_filter.cc:126-142 | the first `n` samples become the filter output, the rest are unchanged, and the state is the last output reset when not finite and normal |
| Filters.LowPass.Ctrl | libs/ardour/dsp_filter.cc:144-155 | the first `n` samples get the smoothed step towards the target; the state is kept without reset |
| Filters.ClampQ | libs/ardour/dsp_filter.cc:268-270 | Q is at least 0.001, and a larger Q is kept |
| Filters.ClampFreq | libs/ardour/dsp_filter.cc:271-276 | a frequency at or above `0.4998 * rate` becomes exactly that bound; one at or below 1 becomes exactly 1 when the bound exceeds 1; a frequency strictly between is kept; when the bound is at most 1 the result is the bound |
| Filters.Cookbook | libs/ardour/dsp_filter.cc:294-374 | the cookbook section of each type before the division by `a0`; its properties are stated by CookbookZeros, CookbookA0Positive and CookbookPoles |
| Filters.CookbookZeros | libs/ardour/dsp_filter.cc:294-374 | before the division by `a0`: the low-pass has a zero at Nyquist, the high-pass at DC, both band-passes at DC and Nyquist; the notch and the peaking section have unit gain at DC and at Nyquist; the all-pass numerator is the pole polynomial reversed |
| Filters.CookbookA0Positive | libs/ardour/dsp_filter.cc:295-374 | every cookbook section has a positive `a0`, so the division that normalises it is defined |
| Filters.Normalise | libs/ardour/dsp_filter.cc:443-448 | each stored coefficient times `a0` gives the section's coefficient |
| Filters.W0InRange | libs/ardour/dsp_filter.cc:283 | the angle of a clamped frequency lies strictly between 0 and pi |
| Filters.DesignClamps | libs/ardour/dsp_filter.cc:266-276 | a Q and frequency already in range are used as given |
| Filters.Design | libs/ardour/dsp_filter.cc:265-449 | for every cookbook type the stored coefficients satisfy `-1 < a2 < 1` and `|a1| <= 1 + a2`: both poles lie in the closed unit disc |
| Filters.CookbookPoles | libs/ardour/dsp_filter.cc:295-374 | every cookbook section, before the division, has `|a2| < a0` and `|a1| <= a0 + a2` |
| Filters.NormalisedPoles | libs/ardour/dsp_filter.cc:444-448 | dividing by a positive `a0` carries that triangle over to the stored coefficients |
| Filters.AllPassSymmetric | libs/ardour/dsp_filter.cc:340-347 | the all-pass numerator is the reversed denominator |
| Filters.NotchUnitDcGain | libs/ardour/dsp_filter.cc:331-338 | the notch has unit gain at DC |
| Filters.IdentityPassesThrough | libs/ardour/dsp_filter.cc:159-169 | a new Biquad passes every signal through unchanged with its registers at 0 |
| Filters.BiquadRun | libs/ardour/dsp_filter.cc:183-204 | one output per input sample |
| Filters.BiquadRunPrefix | libs/ardour/dsp_filter.cc:183-204 | running a prefix of the input gives the prefix of the output: each output depends only on the samples up to it |
| Filters.SilenceStaysSilent | libs/ardour/dsp_filter.cc:183-204 | silence into a section at rest stays silence, whatever the coefficients |
| Filters.Biquad.constructor | libs/ardour/dsp_filter.cc:159-169 | the rate is stored, the registers are 0, and the coefficients pass signal through (`b0 = 1`, the rest 0) |
| Filters.Biquad.Copy | libs/ardour/dsp_filter.cc:171-181 | the rate and the five coefficients are copied; the registers start at 0 |
| Filters.Biquad.Configure | libs/ardour/dsp_filter.cc:206-224 | `coefficients` reads back exactly the five values configured; rate and registers are kept |
| Filters.Biquad.Coefficients | libs/ardour/dsp_filter.cc:216-224 | the five stored coefficients, `a1`, `a2`, `b0`, `b1`, `b2`; with `Configure` they read back what was configured |
| Filters.Biquad.ConfigureFrom | libs/ardour/dsp_filter.cc:226-234 | the other filter's coefficients are copied; rate and registers are kept |
| Filters.Biquad.Compute | libs/ardour/dsp_filter.cc:265-449 | the stored coefficients are the design for the clamped Q and frequency; rate and registers are kept |
| Filters.Biquad.Tick | libs/ardour/dsp_filter.cc:186-190 | one sample gives the transposed direct form II output and registers |
| Filters.Biquad.Run | libs/ardour/dsp_filter.cc:183-204 | the first `n` samples become the filter output, the rest are unchanged, the coefficients are kept, and each register is reset when not finite and normal |
| Spectrum.FFTSpectrum.constructor | libs/ardour/dsp_filter.cc:478-526 | four distinct buffers of the window size (power: half of it), the output and power zeroed, the window stored |
| Spectrum.FFTSpectrum.Reset | libs/ardour/dsp_filter.cc:527-536 | the power and the transform's output are zeroed |
| Spectrum.FFTSpectrum.SetDataHann | libs/ardour/dsp_filter.cc:538-545 | only input indices `offset` to `offset + n - 1` change, each to the sample times its window value |
| Noise.Randi | libs/ardour/dsp_filter.cc:991-1002 | the new seed fits in 32 bits |
| Noise.RandiNoWrap | libs/ardour/dsp_filter.cc:991-1002 | no intermediate of `randi` wraps, for any 32-bit seed |
| Noise.RandiIsParkMiller | libs/ardour/dsp_filter.cc:991-1002 | for a seed in [1, 2^31 - 2], `randi` is `16807 * seed mod (2^31 - 1)` and stays in that range |
| Noise.RandiIterInRange | libs/ardour/dsp_filter.cc:991-1002 | every number of steps keeps the seed in [1, 2^31 - 2], each step the Park–Miller step |
| Noise.Grand | libs/ardour/dsp_filter.cc:1004-1025 | with a spare value cached, it is returned and the flag cleared; otherwise the first of a fresh pair is returned, the second cached, after two draws per round |
| Noise.GrandAlternates | libs/ardour/dsp_filter.cc:1004-1025 | after a fresh pair the next call returns the cached second value without drawing |
| Noise.Generator.constructor | libs/ardour/dsp_filter.cc:944-949 | uniform white noise, seed 1, the pink bank and the cache cleared |
| Noise.Generator.SetType | libs/ardour/dsp_filter.cc:951-958 | the type is set, b0 to b6, the flag and the spare value are zeroed, the seed is kept |
| Noise.Generator.NextRandom | libs/ardour/dsp_filter.cc:991-1002 | the seed takes one Park–Miller step and is returned; nothing else changes |
| Noise.Generator.GaussianRandom | libs/ardour/dsp_filter.cc:1004-1025 | the value and the new seed and cache are those of `Grand` |
| Perceptual.SpeedValue | libs/ardour/dsp_filter.cc:664-685 | every preset is a positive time constant, 20 for noise and 0.03 for rapid |
| Perceptual.SpeedPresetsOrdered | libs/ardour/dsp_filter.cc:664-685 | the presets run from the longest to the shortest time constant |
| Perceptual.CursorStep | libs/ardour/dsp_filter.cc:745-749 | a cursor on a chunk boundary has room for its chunk and stays on a boundary inside the buffer |
| Perceptual.Leaky | libs/ardour/dsp_filter.cc:801-820 | each power value moves towards its bin's power by the leak factor |
| Perceptual.LeakyBetween | libs/ardour/dsp_filter.cc:801-820 | with a factor in [0, 1] each power value lands between its old value and its bin's power |
| Perceptual.MaxBinIsMax | libs/ardour/dsp_filter.cc:798-815 | the running maximum is at least 0 and every bin, and is 0 or one of the bins |
| Perceptual.NextPmax | libs/ardour/dsp_filter.cc:823-827 | a new maximum is taken, otherwise the meter decays by 5% |
| Perceptual.Averaged | libs/ardour/dsp_filter.cc:836-844 | each bin becomes `(n * old + power) / (n + 1)` |
| Perceptual.NextCount | libs/ardour/dsp_filter.cc:845 | the count grows by one only below 1,000,000 |
| Perceptual.Measure | libs/ardour/dsp_filter.cc:745-827 | one chunk moves the cursor on and marks the power valid, leaving the peak trace, its flag and count alone |
| Perceptual.Chunk | libs/ardour/dsp_filter.cc:745-847 | one chunk moves the cursor; only average mode advances the count |
| Perceptual.StepsFirst | libs/ardour/dsp_filter.cc:744-848 | the first of several chunks can be taken first |
| Perceptual.RunStep | libs/ardour/dsp_filter.cc:744 | while input remains, `process` takes one chunk and goes on with `fftlen / 2` fewer samples |
| Perceptual.ChunkCountIsCeiling | libs/ardour/dsp_filter.cc:744 | `process (iplen)` handles `ceil (iplen / (fftlen / 2))` chunks, none for `iplen <= 0` |
| Perceptual.CursorAfterSteps | libs/ardour/dsp_filter.cc:745-749 | after `n` chunks the cursor has moved by `n * fftlen / 2` modulo the buffer size |
| Perceptual.ChunkCount | libs/ardour/dsp_filter.cc:744 | no chunk exactly when `iplen <= 0` |
| Perceptual.Run | libs/ardour/dsp_filter.cc:734-849 | the chunks of `process` keep the analyzer's state well formed |
| Perceptual.ChunkCursor | libs/ardour/dsp_filter.cc:745-749 | one chunk moves the cursor by `fftlen / 2` modulo the buffer size, wrapping to 0 at the end |
| Perceptual.PeakHolds | libs/ardour/dsp_filter.cc:829-835 | in peak mode no bin decreases, each is at least the new power, and the count is kept |
| Perceptual.HoldPeak | libs/ardour/dsp_filter.cc:829-835 | each bin is the larger of its old value and the power: at least both, and equal to one of them |
| Perceptual.PeakNeverDecreases | libs/ardour/dsp_filter.cc:829-835 | over any number of peak chunks no bin of the peak trace decreases |
| Perceptual.MeanBetween | libs/ardour/dsp_filter.cc:840-843 | the weighted mean lies between its two values |
| Perceptual.AverageStep | libs/ardour/dsp_filter.cc:836-846 | in average mode each bin moves to a point between its old value and the power, and the count grows by one below its cap |
| Perceptual.CountSaturates | libs/ardour/dsp_filter.cc:845 | `n` average chunks leave the count at the smaller of `count + n` and 1,000,000 |
| Perceptual.CountOnlyInAverage | libs/ardour/dsp_filter.cc:829-847 | the modes other than average never change the count |
| Perceptual.FirstAverageIsPower | libs/ardour/dsp_filter.cc:836-844 | the first average after a reset is the power trace itself |
| Perceptual.Trace.constructor | libs/ardour/dsp_filter.cc:574-578 | a fresh buffer of the size, not valid; the count is left unset |
| Perceptual.PerceptualAnalyzer.constructor | libs/ardour/dsp_filter.cc:585-600 | sizes stored, warp factor 0.9, speed 1, cursor 0, the delay line and both traces zeroed, both flags clear and the count 0 |
| Perceptual.PerceptualAnalyzer.SetSpeed | libs/ardour/dsp_filter.cc:664-685 | the speed becomes the preset's time constant |
| Perceptual.PerceptualAnalyzer.SetSpeedValue | libs/ardour/dsp_filter.cc:687-690 | the speed becomes the value |
| Perceptual.PerceptualAnalyzer.Reset | libs/ardour/dsp_filter.cc:692-701 | both flags cleared, the count zeroed, the delay line and both traces zeroed; cursor and peak meter kept |
| Perceptual.PerceptualAnalyzer.Process | libs/ardour/dsp_filter.cc:734-849 | the new state is `ceil (iplen / (fftlen / 2))` chunks applied in order to the old state |
| Perceptual.PerceptualAnalyzer.ProcessStep | libs/ardour/dsp_filter.cc:744-848 | one loop iteration keeps the remaining chunks leading to the same final state |
| Perceptual.PerceptualAnalyzer.ProcessChunk | libs/ardour/dsp_filter.cc:745-847 | the state after one iteration is `Chunk` of the state before |
| Perceptual.PerceptualAnalyzer.MeasureChunk | libs/ardour/dsp_filter.cc:745-827 | the state after the shared part of an iteration is `Measure` of the state before |
| Perceptual.PerceptualAnalyzer.AdvanceCursor | libs/ardour/dsp_filter.cc:745-749 | the chunk starts at the old cursor and fits; the cursor advances and wraps to 0 at the end |
| Perceptual.PerceptualAnalyzer.UpdatePeakMeter | libs/ardour/dsp_filter.cc:823-827 | the meter takes a new maximum, otherwise decays by 5% |
| Perceptual.PerceptualAnalyzer.WarpChunk | libs/ardour/dsp_filter.cc:751-784 | the delay line holds the cascade's values for the chunk at the cursor |
| Perceptual.PerceptualAnalyzer.UpdatePower | libs/ardour/dsp_filter.cc:795-821 | the power trace gets the leaky update for every bin, and the result is the largest of 0 and the first `fftlen` bins |
| Perceptual.PerceptualAnalyzer.LeakBin | libs/ardour/dsp_filter.cc:807 | one bin moves towards its power and every other bin is unchanged |
| Perceptual.PerceptualAnalyzer.HoldPeaks | libs/ardour/dsp_filter.cc:829-835 | each peak bin becomes the larger of itself and the power |
| Perceptual.PerceptualAnalyzer.AveragePeaks | libs/ardour/dsp_filter.cc:836-846 | each bin becomes the mean of `n` copies of itself and the power |

## Left out

- The headers libs/gtkmm2ext/gtkmm2ext/bindings.h and libs/ardour/ardour/dsp_filter.h are not part of this model. `randf ()` is defined there; the Gaussian generator's seed update assumes that each `randf ()` makes exactly one `randi ()` call, so a pair of draws advances the seed by two Park–Miller steps. `KeyboardKey::state ()` and `key ()`, and `MouseButton::state ()` and `button ()`, are taken as the high and low 32-bit halves of the value, as the constructors pack them. The FFT length of `PerceptualAnalyzer` is a constructor parameter. The order of `KeybindingMap` and `MouseButtonBindingMap` (`operator<` of the two key types, declared there) is taken to be the unsigned order of the packed 64-bit value; "first in key order" in `remove` depends on this choice.
- GDK (`gdk_keyval_from_name`, `gdk_keyval_is_upper`/`is_lower`, `gdk_keyval_to_lower`), the `Keyboard` modifier masks, the action manager and the drag state are foreign. They are parameters.
- `KeyboardKey::name`, `native_name`, `display_label`, `push_to_gtk`, `associate`, `dissociate`, `get_binding_for_action`, `bound_name` (bindings.cc:1172-1188), signal emission, `save` and HTML export, the global `bindings` registry and `set_widget_bindings` are left out. Each is toolkit, action-manager or file I/O plumbing; `bound_name` only returns a foreign action label.
- The constructor from a parent, `copy_from_parent`, `parent_changed` and the `clone_*` helpers (bindings.cc:382-391, 595-642) are left out. They copy a parent's key tables, relativize them and re-associate actions when the parent's change signal arrives; the signal and the action association are not modelled. `get_all_actions`, `get_bindings`, `associate_all`, `reassociate` and `ardour_action_name` are left out as registry and action-manager plumbing.
- `_("Escape")` is read as the untranslated text `Escape`; gettext is foreign.
- Keys.MakeButton: `PBD::atoi` is modelled as C `atoi` on unbounded integers, then reduced to 32 bits. The undefined behaviour of `atoi` on overflow is not modelled.
- `DSP::process_map` is left out: it routes host buffers and channels over types this model does not have.
- FFTW plan creation, execution and destruction, `FFTSpectrum::execute`, `freq_per_bin`, `power_at_bin`, and the process-wide planner lock are left out. They are foreign calls and a concurrency primitive.
- Floating-point values are not modelled. This covers the cookbook and matched (Vicanek) coefficient fits, `dB_at_freq`, `log_meter`, `warp_freq`, `set_wfact`, `conv0`/`conv1`, the all-pass cascade arithmetic, Box–Muller, the pink-noise bank, `Generator::run`, `randf` and `StereoCorrelation`. Samples are reals, and the transcendental functions, the cascade, the transform with its smoothing, and the leak factor are parameters. Rounding, NaN and infinity are not modelled beyond the finiteness and normality predicates of `DspBuffers.FloatEnv`.
- Filters.LowPass.constructor and Filters.LowPass.SetCutoff require a non-zero rate. The source divides by it, and the infinite or NaN factor a zero rate gives is outside a model on reals.
- Filters.Biquad.Compute: the coefficients are stated through the transcendental functions passed in. Only the clamps, the positive `a0`, the pole bound and the structural properties are proved. It requires a positive rate: `Biquad (samplerate)` accepts any rate, and `compute` divides by it (dsp_filter.cc:283), so a zero or negative rate gives infinite, NaN or mis-signed coefficients that a model on reals does not have.
- Filters.Design requires a positive rate, for the same reason as Filters.Biquad.Compute.
- Spectrum.FFTSpectrum.SetDataHann requires the samples not to be the input buffer itself. Aliasing of the two buffers is not modelled.
- Spectrum.FFTSpectrum.constructor: the Hann window values are a parameter.
- Perceptual.PerceptualAnalyzer.constructor requires the input size to be a multiple of half the FFT length. Otherwise the source's cursor skips its wrap test and reads past the buffer, which is not modelled. The peak meter `_pmax` gets no value in dsp_filter.cc; the model starts it at 0. The contents of the new input buffer are left unstated, as `new float []` leaves them.
- Perceptual.Trace.constructor: `Trace (size)` does not set `_count`; the model leaves it unstated, and only `reset`, which the analyzer's constructor runs, sets it to 0.
- Perceptual.PerceptualAnalyzer.Process: the loop counter `int k` of `process` is unbounded here, so its overflow for `iplen` near `INT_MAX` is not modelled. The unused running sum of the power loop is not modelled either.
- Perceptual.PerceptualAnalyzer.WarpChunk: the cascade of `process` reads its chunk four samples at a time. The model hands the cascade the `fftlen / 2` samples at the cursor. When `fftlen / 2` is not a multiple of 4, the source reads past the chunk; the model does not capture that case.
