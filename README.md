# NVM exporter model

This project models `WriteNVMFile` of the Theia structure-from-motion
library. The function exports a reconstruction (views with cameras, tracks
with 3D points, and each track's observations) as an NVM text file. It also
writes a companion offsets file holding each camera's principal point,
because NVM stores features relative to that point.

The export goes through these steps:

1. Open the NVM file. Derive the offsets path from the NVM path by removing
   the last four characters (never more than the path holds) and appending
   `_offsets.txt`. Open the offsets file.
2. Write the header `NVM_V3 ` and a blank line.
3. Camera pass, over the views in enumeration order:
   - write the view count;
   - give each view the next dense camera ordinal;
   - write its camera line (name, focal length, quaternion, centre, one
     distortion coefficient, reserved 0) and its offsets line;
   - record, for each track the view lists, its position in that list.
4. Point pass, over the tracks in enumeration order:
   - write the track count;
   - write each track's point, its colour truncated to integers and its
     view count;
   - write one observation group per observing view: camera ordinal,
     feature ordinal, and the feature minus the principal point.
5. Write the end marker `0`.

A failed open returns false. A failed `FindOrDie` lookup ends the program.
Dereferencing a missing view or a missing feature is undefined behaviour in
C++. The model turns both kinds of failure into the status `Aborted`.

Module structure:

- `NvmTypes` holds the reconstruction, the two files' line records and the
  outcome of an export.
- `NvmIndex` defines the two index maps as the values the camera pass leaves
  behind, and proves what they mean.
- `NvmSpec` defines what one export produces, as the function `Export`.
- `NvmWriter` holds the exporter as imperative methods with loops. Each is
  proved to compute its specification function, and `WriteNvmFile` is
  proved to compute `Export`.
- `NvmProperties` proves what an export means. Its main results:
  - the export returns true exactly when both files open and every claimed
    observation is backed by its view;
  - every line written says what the format requires;
  - an abort names a lookup that genuinely misses.
- `NvmScenarios` works one concrete two-view export through to its exact
  output.

The reconstruction's collaborators are plain records. Opening a file is a
lookup in the set `writable` of paths that can be opened. The two output
streams are sequences of line records.

Where the code differs from the format's usual description, the model
follows the code:

- The header line carries a trailing space (`NVM_V3 `).
- The feature ordinal of a track is the LAST position at which its view
  lists it. The ordinals are dense and unique only when the list has no
  repeats (`NvmIndex.FeatureIndexLastPosition`, `NvmIndex.FeatureIndexDistinct`).
- A view that lists no tracks gets no entry in the feature mapping at all,
  so an observation claimed in such a view cannot succeed. It fails at the
  feature lookup when the view holds no feature for the track, and
  otherwise at the feature-mapping lookup.
- A failed index lookup ends the process. It does not make the function
  return false.

## Model

| member | source | states |
|---|---|---|
| NvmSpec.OffsetsPath | src/theia/io/write_nvm_file.cc:66-68 | the offsets path keeps all but the last four characters of the NVM path (nothing when shorter), ends with `_offsets.txt`, is eight characters longer for paths of length four or more, and never equals the NVM path |
| NvmProperties.OffsetsPathReplacesExtension | src/theia/io/write_nvm_file.cc:66-68 | a path made of a stem and a four-character extension gets the stem followed by `_offsets.txt` |
| NvmScenarios.ShortPathOffsets | src/theia/io/write_nvm_file.cc:66-68 | the path `ab` gets the bare `_offsets.txt`, because the truncation length is clamped at 0 |
| NvmSpec.TruncateToInt | src/theia/io/write_nvm_file.cc:142 | the integer colour channel lies within 1 of the real channel on the side of zero, keeps its sign and is no larger in magnitude |
| NvmIndex.ViewIndex | src/theia/io/write_nvm_file.cc:90-92 | definition: after each view, the view id is mapped to the size the map had just before; its meaning is proved in `ViewIndexDense` and `ViewIndexBijection` |
| NvmIndex.FeatureIndex | src/theia/io/write_nvm_file.cc:126-130 | definition: the track at position i of a view's list is written with i, a later write of the same track replacing an earlier one; its meaning is proved in `FeatureIndexLastPosition` |
| NvmIndex.FeatureIndexMapping | src/theia/io/write_nvm_file.cc:124-130 | definition: a view gets an entry only when its track list is non-empty, because the entry is created by the first write of the inner loop; proved in `FeatureIndexMappingAt` |
| NvmSpec.Distortion | src/theia/io/write_nvm_file.cc:114-117 | definition: the pinhole model's first radial-distortion parameter, 0 for every other model |
| NvmSpec.CameraRecordOf | src/theia/io/write_nvm_file.cc:110-118 | definition: a camera line holds name, focal length, quaternion, centre, the distortion value and the reserved 0 |
| NvmSpec.CameraLines | src/theia/io/write_nvm_file.cc:110-118 | one camera line per visited view; the position of each is proved in `CameraLinesAt` |
| NvmSpec.OffsetRecordOf | src/theia/io/write_nvm_file.cc:120-122 | definition: an offsets line holds the view's name and principal point |
| NvmSpec.OffsetLines | src/theia/io/write_nvm_file.cc:120-122 | one offsets line per visited view; the position of each is proved in `OffsetLinesAt` |
| NvmSpec.ObservationOf | src/theia/io/write_nvm_file.cc:150-161 | the lookups for one observing view run in the source's order (view, feature, feature mapping of the view, the track's entry in it, camera ordinal); a failure names that view, and the track where the lookup is about the track |
| NvmSpec.Observations | src/theia/io/write_nvm_file.cc:148-164 | a track's groups stop at the first observing view whose lookups fail; when they succeed there is one group per observing view |
| NvmSpec.PointRecordOf | src/theia/io/write_nvm_file.cc:139-146 | definition: a point line holds the point, the colour channels truncated toward zero and the number of observing views, then the groups |
| NvmSpec.PointPass | src/theia/io/write_nvm_file.cc:133-166 | definition: tracks are visited in order and the pass stops at the first track whose groups fail, keeping the lines already completed; proved in `PointPassCompletes`, `PointPassLines` and `PointPassFailure` |
| NvmSpec.Preamble | src/theia/io/write_nvm_file.cc:79-135 | the lines before the point section number the views plus four, start with the header and end with the track count; their positions are proved in `PreambleAt` |
| NvmSpec.Export | src/theia/io/write_nvm_file.cc:52-75 | the export fails to open exactly when one of the two paths cannot be opened; a failed NVM open creates nothing; a failed offsets open leaves the NVM file created and empty; otherwise both files are created in order, and a completed NVM stream ends with the end marker |
| NvmWriter.WriteNvmFile | src/theia/io/write_nvm_file.cc:52-172 | the exporter's status, created files and both streams are exactly those of `Export` |
| NvmWriter.CameraPass | src/theia/io/write_nvm_file.cc:83-131 | the camera pass leaves the camera lines, the offsets lines, the view-index map and the feature mapping that the specification functions give for all views |
| NvmWriter.AssignFeatureIndices | src/theia/io/write_nvm_file.cc:124-130 | the inner loop leaves the mapping untouched for an empty track list; otherwise it merges the list's ordinal map into the view's entry, creating the entry |
| NvmWriter.ObservationGroups | src/theia/io/write_nvm_file.cc:148-164 | the observation loop yields every group of the track, or stops at the first lookup that misses, as `Observations` says |
| NvmWriter.PointPassLoop | src/theia/io/write_nvm_file.cc:133-166 | the point pass yields the completed point lines and the failure, if any, as `PointPass` says; no track after a failure is visited |
| NvmIndex.ViewIndexDense | src/theia/io/write_nvm_file.cc:90-92 | with distinct view ids, the k-th view id gets ordinal k, the map has one entry per view and holds only view ids |
| NvmIndex.ViewIndexBijection | src/theia/io/write_nvm_file.cc:90-92 | with distinct view ids, the view-index map is a bijection from the view ids onto 0 to n-1, each ordinal naming its own view |
| NvmIndex.FeatureIndexLastPosition | src/theia/io/write_nvm_file.cc:124-130 | a view's ordinal map holds exactly the tracks it lists, each mapped to its last position in the list |
| NvmIndex.FeatureIndexDistinct | src/theia/io/write_nvm_file.cc:124-130 | for a list without repeats, the track at position i gets ordinal i, and the ordinals cover 0 to n-1 |
| NvmIndex.FeatureIndexMappingAt | src/theia/io/write_nvm_file.cc:86-130 | after the camera pass, a view has a feature-ordinal map exactly when it lists at least one track, and that map is its own list's ordinal map |
| NvmSpec.ObservationsFailureSticks | src/theia/io/write_nvm_file.cc:150-161 | once a lookup misses for some observing view, the later views do not change the outcome |
| NvmSpec.PointPassFailureSticks | src/theia/io/write_nvm_file.cc:137-161 | once a lookup misses for some track, the later tracks do not change the outcome |
| NvmProperties.CameraLinesAt | src/theia/io/write_nvm_file.cc:110-118 | one camera line per view, in order, each carrying that view's name, focal length, orientation, centre, distortion and reserved 0 |
| NvmProperties.OffsetLinesAt | src/theia/io/write_nvm_file.cc:120-122 | one offsets line per view, in order, each carrying that view's name and principal point |
| NvmProperties.ObservationsAt | src/theia/io/write_nvm_file.cc:148-164 | a track's groups succeed exactly when each view's lookups succeed, and then group k is view k's group; a failure is that of the first view whose lookups fail, every earlier view's lookups succeeding |
| NvmProperties.PointPassCompletes | src/theia/io/write_nvm_file.cc:137-166 | the point pass completes exactly when every track's groups succeed |
| NvmProperties.PointPassLines | src/theia/io/write_nvm_file.cc:137-166 | a completed point pass writes one point line per track, in order, built from that track's groups |
| NvmProperties.PointPassFailure | src/theia/io/write_nvm_file.cc:137-166 | a failed point pass stops on a track j whose groups fail with the reported failure; every earlier track's groups succeed, and the lines written are exactly the j point lines of those earlier tracks |
| NvmProperties.PointPassFailsLast | src/theia/io/write_nvm_file.cc:137-166 | when every track but the last completes and the pass fails, it fails on the last track after writing the earlier tracks' point lines |
| NvmProperties.ObservationOfCharacterised | src/theia/io/write_nvm_file.cc:149-161 | with the maps the camera pass builds, the lookups for a track in a view succeed exactly when the view lists the track and holds a feature for it; the group then carries the view's ordinal, the track's last position in the view's list and the feature minus the principal point; the camera-ordinal lookup never misses |
| NvmProperties.ObservationOfFailure | src/theia/io/write_nvm_file.cc:149-161 | a lookup that misses misses for a stated reason: no such view, no feature, a view listing no tracks, or a track the view does not list |
| NvmProperties.GroupsSucceedIff | src/theia/io/write_nvm_file.cc:149-161 | a track's groups succeed exactly when every view it claims lists it and holds a feature for it |
| NvmProperties.GroupsFailure | src/theia/io/write_nvm_file.cc:148-164 | when a track's groups fail, some view it claims does not back it, and the failure names the first such view (and the track, where the lookup is about the track) for the reason `FailureExplained` gives |
| NvmProperties.ExportWrittenIff | src/theia/io/write_nvm_file.cc:52-172 | the export returns true exactly when both files open and every observation a track claims is backed by its view |
| NvmProperties.PointPassAbort | src/theia/io/write_nvm_file.cc:133-166 | a point pass that stops does so on the first track that some claimed view does not back, at the first such view, and it has written the complete point lines of every earlier track |
| NvmProperties.ExportAbortCause | src/theia/io/write_nvm_file.cc:133-166 | an aborted export names a lookup that genuinely misses, never the camera-ordinal lookup; the failure is at the first unbacked view of the first track some claimed view does not back; the NVM stream is the preamble followed by the complete point lines of exactly the earlier tracks |
| NvmProperties.PointLineOfTrack | src/theia/io/write_nvm_file.cc:137-165 | the point line of a track whose groups succeed carries its point, its truncated colour, its view count and one correct group per observing view, in the track's order |
| NvmProperties.PreambleAt | src/theia/io/write_nvm_file.cc:79-135 | the lines before the points are the header, a blank line, the view count, one camera line per view (with its name, focal length, orientation, centre, the pinhole coefficient or 0, and reserved 0) and the track count |
| NvmProperties.ExportCameraSection | src/theia/io/write_nvm_file.cc:79-118 | once both files open, whether or not the export then completes, the NVM stream starts with exactly those lines |
| NvmProperties.ExportOffsets | src/theia/io/write_nvm_file.cc:120-122 | once both files open, offsets line k holds view k's name and principal point, one line per view, in the order of the camera lines |
| NvmProperties.PointPassMeans | src/theia/io/write_nvm_file.cc:133-166 | a completed point pass writes, for each track, a point line that says what that track's point line must say |
| NvmProperties.ExportPointSection | src/theia/io/write_nvm_file.cc:133-172 | a completed export has n+m+5 lines: the preamble, then track j's correct point line at n+4+j, then the end marker |
| NvmScenarios.SceneExport | src/theia/io/write_nvm_file.cc:52-172 | the two-view scene exports to exactly eight NVM lines, one point line with both groups and a truncated colour, and two offsets lines |
| NvmScenarios.SceneCameraLines | src/theia/io/write_nvm_file.cc:110-122 | in the scene, the pinhole camera's line carries -0.25 and the other model's carries 0 |
| NvmScenarios.ScenePointPass | src/theia/io/write_nvm_file.cc:137-165 | in the scene, the point pass writes the one expected point line |
| NvmScenarios.SceneObservations | src/theia/io/write_nvm_file.cc:148-164 | in the scene, the track's groups carry camera ordinals 0 and 1 and feature ordinal 0 |
| NvmScenarios.SceneFeatureMapping | src/theia/io/write_nvm_file.cc:124-130 | in the scene, each view maps the track to ordinal 0 |
| NvmScenarios.SceneViewIndex | src/theia/io/write_nvm_file.cc:90-92 | in the scene, the views get ordinals 0 and 1 in enumeration order |
| NvmScenarios.EmptyViewObservation | src/theia/io/write_nvm_file.cc:124-161 | a view that lists no tracks gets no feature-ordinal map, so a track claiming it fails at the feature lookup when the view holds no feature for it, and otherwise at the feature-mapping lookup |
| NvmScenarios.SceneIsValid | src/theia/io/write_nvm_file.cc:83-134 | the scene enumerates each view and track id once |

## Left out

- Stream formatting is left out. This covers the 17-digit precision, the separators and newlines, and the console and log messages. The streams are sequences of line records.
- NvmSpec.OffsetsPath: paths are byte strings, one `char` per byte. The source's `size()` and `substr` count bytes, so a path with multi-byte UTF-8 characters loses a different number of characters there than here, and the source can split a character. Non-ASCII paths are not modelled.
- Files are not opened, closed or truncated for real. Opening is a lookup in `writable`, and the model records the files created in order.
- The one-time warning flag `printed_warning` is left out, because it only controls a console message.
- The rotation-matrix-to-quaternion conversion and the perspective division of the homogeneous point are not modelled. The camera supplies its orientation as a quaternion and the track its Euclidean point.
- Floating-point arithmetic is modelled with exact reals. This covers the feature-minus-principal-point subtraction and the colour values.
- NvmSpec.TruncateToInt: the colour cast truncates toward zero but is unbounded. Out-of-range conversions to a 32-bit int, which are undefined in C++, are not modelled.
- Integer widths are unbounded. This covers the `int` ordinals, the loop counter compared with `size()`, and the counts.
- A point line the process is writing when a lookup fails is not kept. `Aborted` keeps only the NVM lines completed before the failure.
- For both streams, `ExportResult` gives what was written to the stream, not what the file holds. The offsets lines end in `"\n"` rather than `std::endl`, so the offsets stream is never flushed before a failed lookup ends the process. The NVM stream is flushed at each completed line, but the partial point line stays in its buffer. What reaches either file after an abort is not modelled.
- A missing view, a missing feature and a `FindOrDie` miss all become `Aborted`. A null dereference is undefined behaviour in C++, so the model does not say what the program would do after one; `FindOrDie` ends the process.
- The reconstruction, view, camera and track classes are plain records. Their own implementations are not part of this model.
- The exporter runs its loops inline in one function. Here the camera pass, its inner loop, the point pass and the observation loop are separate methods, each proved against its own specification function.
