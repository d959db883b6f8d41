# librealsense camera descriptors and mode selection, in Dafny

This project models the core declared in `src/types.h` of librealsense's `rsimpl` namespace. The core is the static capability catalog of a depth camera and the mode-selection contract over it. A camera model lists the modes each hardware subdevice can be put into. Each mode carries the client-visible stream modes it produces. Given one `stream_request` per stream, `static_camera_info::select_mode` picks the first mode of a subdevice that serves every enabled request mapped to that subdevice, provided the interstream rules hold.

The project also models two small helpers from the same header:

- the enumeration helpers that one macro stamps out for streams, formats, presets, distortions and options;
- the storage layout, indexing and transpose of the header's 3x3 matrix.

Modules, one file each:

- `Wrappers` (`wrappers.dfy`): `Option`, standing for a nullable pointer.
- `Decimal` (`decimal.dfy`): how a `std::ostream` with default flags and the classic locale writes an `int`, with its inverse `ParseDecimal`.
- `Enums` (`enums.dfy`): `is_valid` and `operator <<` for an enumeration given by its name table. The table's length is the enumeration's `COUNT` constant.
- `LinearAlgebra` (`linear_algebra.dfy`): `float3`, column-major `float3x3`, `operator[]` and `operator()` (both reading and writing), and `transpose`. Floats are modelled as reals.
- `CameraInfo` (`camera_info.dfy`): `stream_request`, `stream_mode`, `subdevice_mode`, `interstream_rule` and `static_camera_info`. Also rule evaluation and request-to-stream-mode matching.
- `Selection` (`selection.dfy`): `select_mode` as a search over the catalog in declaration order, plus laws relating selections for related request arrays.
- `Scenario` (`scenario.dfy`): a concrete stereo-infrared camera with selections worked out.

The body of `select_mode` is not part of this model; only its declaration and the field comments are. The search is built from that contract:

- A request field of 0, or format `RS_FORMAT_ANY`, means "don't care". Every other field must equal the offered stream mode's field.
- Only requests that are enabled and whose `stream_subdevices` entry equals the subdevice index must be served.
- Every interstream rule must hold over the enabled requests, checked against the requested values. The rules are evaluated once before the search, because they do not depend on the candidate. A rule with either side disabled holds.
- The first catalog entry for the subdevice that qualifies is returned. Otherwise the result is `None`, with no fallback.

`RS_FORMAT_ANY` is taken to be 0 (`CameraInfo.FormatAny`). The public header that defines it and the `RS_*_COUNT` constants is not part of this model.

A rule applies to every pair of enabled requests, including requests mapped to other subdevices. It is not limited to the requests relevant to the call. Because rules compare requested values, a "don't care" 0 on one side of a rule is compared as 0. Resolving it from the other stream's value is not part of this model (see `Selection.WildcardSideFailsRule` and `Scenario.WildcardFpsFailsRule`).

## Model

| member | source | states |
|---|---|---|
| `Decimal.IntToDecimal` | src/types.h:19 | the raw-integer fallback of `operator <<` is a canonical decimal: a minus sign exactly for negative values, then digits with no leading zero |
| `Decimal.DecimalRoundTrip` | src/types.h:19 | reading the decimal rendering of any integer, negative ones included, gives back that integer |
| `Decimal.CanonicalRoundTrip` | src/types.h:19 | conversely, every canonical decimal string is the rendering of the integer it denotes, so the rendering is a bijection onto canonical decimals |
| `Enums.Render` | src/types.h:17-25 | a valid value renders as its name from the `get_string` table; an invalid one renders as a canonical decimal that reads back as the value itself, so rendering never fails |
| `Enums.ValidIffInRange` | src/types.h:18 | `is_valid(v)` holds exactly for the values 0 .. COUNT-1 that a counting loop up to `COUNT` visits |
| `LinearAlgebra.Component` | src/types.h:30 | `v[i]` is the `i`-th of the three floats stored from `x` onwards |
| `LinearAlgebra.At` | src/types.h:31 | `m(i, j)` is the float at storage offset `3*j + i`: row `i` of column `j`, so the matrix is column-major |
| `LinearAlgebra.SetComponent` | src/types.h:30 | writing through `v[i]` sets component `i` and leaves the other two unchanged |
| `LinearAlgebra.SetAt` | src/types.h:31 | writing through `m(i, j)` sets that entry, which then reads back, and leaves the other eight entries unchanged |
| `LinearAlgebra.SetAtReadBack` | src/types.h:31 | writing back the value just read through `m(i, j)` leaves the matrix unchanged |
| `LinearAlgebra.Extensionality` | src/types.h:31 | two matrices whose nine accessor values agree are equal, so the accessor reaches every stored float |
| `LinearAlgebra.Transpose` | src/types.h:37 | `transpose(a)(i, j) == a(j, i)` for all `i, j` in 0..2 |
| `LinearAlgebra.TransposeInvolution` | src/types.h:37 | transposing twice gives back the original matrix |
| `LinearAlgebra.TransposeLayout` | src/types.h:37 | in storage, transpose moves the float at offset `3*i + j` to offset `3*j + i` |
| `CameraInfo.RuleVacuity` | src/types.h:94-99 | a rule with either stream disabled holds whatever width, height, format and fps either side asks for |
| `CameraInfo.UnavailableNeverRelevant` | src/types.h:104 | a stream whose `stream_subdevices` entry is the -1 sentinel is never among the requests a real subdevice must serve |
| `CameraInfo.RulesHold` | src/types.h:94-99 | evaluating the rule list one rule at a time agrees with "every rule holds" |
| `CameraInfo.FindStreamMode` | src/types.h:67-74 | the search finds the first stream mode of the given stream that matches the request up to "don't care" fields, or reports that none does |
| `Selection.ServesFrom` | src/types.h:104 | the stream-by-stream check accepts a mode exactly when every enabled request mapped to the subdevice is offered by one of its stream modes |
| `Selection.SearchFrom` | src/types.h:105 | the catalog walk from position `i` returns the first acceptable entry at or after `i`, or none when there is none |
| `Selection.SelectMode` | src/types.h:101-112 | the result is a catalog entry for the requested subdevice. Every enabled relevant request is matched by a stream mode of the same stream, and every interstream rule holds. No earlier entry qualifies. `None` is returned exactly when no entry qualifies |
| `Selection.SelectionMonotone` | src/types.h:112 | if every mode acceptable for one request array is acceptable for another, a selection for the first implies one for the second, at the same or an earlier entry |
| `Selection.DisablingKeepsSelection` | src/types.h:59-61 | turning off one request's `enabled` flag never makes selection fail and can only move the choice earlier |
| `Selection.RulesIgnoreFormat` | src/types.h:94-97 | the rules select only `int` members, so changing a request's format never changes whether they hold |
| `Selection.AnyFormatKeepsSelection` | src/types.h:63 | replacing a request's format by `RS_FORMAT_ANY` never makes selection fail and can only move the choice earlier |
| `Selection.WildcardSideFailsRule` | src/types.h:94-98 | with both sides of a rule enabled, nothing is selected when `b.field == 0` and `a.field + delta != 0`, or when `a.field == 0` and `b.field != delta` |
| `Selection.DisabledRequestsIgnored` | src/types.h:59-65 | two request arrays with the same enabled flags and identical enabled requests select the same mode |
| `Scenario.StereoRequestSelectsStereoMode` | src/types.h:76-112 | two infrared streams requested at 640x480 Y8 30 fps select the single stereo mode of a one-subdevice camera |
| `Scenario.WildcardRequestSelectsStereoMode` | src/types.h:59-72 | a second infrared request with width, height and format left "don't care" (0, 0, `RS_FORMAT_ANY`) and fps 30 still selects the stereo mode |
| `Scenario.ExampleWildcardRequestWithoutRule` | examples/cpp-capture.cpp:77 | the capture example's all-"don't care" request `0, 0, RS_FORMAT_ANY, 0` for the second infrared stream selects the stereo mode, which matches the first stream, once no rule ties the two streams together |
| `Scenario.RuleViolationSelectsNothing` | src/types.h:94 | frame rates that break the equal-fps rule select nothing, even though the catalog has a mode for the subdevice |
| `Scenario.WildcardFpsFailsRule` | src/types.h:94 | because rules compare requested values, a "don't care" fps on one side of the equal-fps rule is compared as 0 and selects nothing |
| `Scenario.OtherSubdeviceSelectsNothing` | src/types.h:78 | asking for a subdevice index that has no catalog entry selects nothing |

## Left out

- Unpackers and frame-number decoders (src/types.h:83-92): they are declared only. A `subdevice_mode` carries them as the opaque tags `Unpacker` and `FrameNumberDecoder`.
- `get_image_size` (src/types.h:27): declared only, with no body to model.
- `get_string` (src/types.h:17): declared only. Each enumeration's name table is a parameter (`EnumTable`), and its length stands for the `RS_*_COUNT` constant.
- Vector and matrix arithmetic and pose algebra (src/types.h:33-36, 38-40): this is floating-point numerics. Line 39 composes positions as `a.position + (a.orientation*b.position + a.position)`, adding `a.position` twice. `inverse` (line 40) assumes an orthonormal orientation. Neither is modelled, and no identity or inverse law is stated.
- `uvc::frame_format` codes (src/types.h:45-55): kept as the tag `FrameFormat`, without the numeric codes.
- `calibration_info` (src/types.h:116-121), the `to_string` helper (src/types.h:124-129) and the `static_camera_info` constructor (src/types.h:110): no operation of the core reads them.
- Presets and option-support table (src/types.h:107-108): `presets` and `optionSupported` are held as data, and no operation reads them.
- `CameraInfo.RulesHold`: evaluates `a.field + delta` over unbounded integers. C++ `int` overflow is undefined behaviour and is not modelled.
- `Selection.SelectMode`: a rule is checked against the requested values, because src/types.h:94 states it literally as `a.*field + delta == b.*field` over `stream_request` members. Filling a "don't care" field from the other side of a rule is not modelled. As a consequence, the capture example's request `0, 0, RS_FORMAT_ANY, 0` for INFRARED_2 (examples/cpp-capture.cpp:77) selects nothing on any camera with an INFRARED/INFRARED_2 rule on fps, width or height, whenever the rule fails with INFRARED_2's field at 0: with INFRARED as side `a`, when INFRARED's field plus the delta is not 0; with INFRARED as side `b`, when INFRARED's field is not the delta (`Selection.WildcardSideFailsRule`, `Scenario.WildcardFpsFailsRule`). Without such a rule it selects a matching mode (`Scenario.ExampleWildcardRequestWithoutRule`).
- `Enums.Render`: the fallback models `out << (int)value` on a stream with default flags and the classic locale. The caller's stream state is not modelled: `std::hex`, `std::oct`, `std::showpos`, `std::setw` and fill, and locale digit grouping all change the characters written.
- The demonstration application `examples/cpp-capture.cpp`: windowing, OpenGL, font rendering, file probing, field of view, sleeps and option get/set are outside the core.
