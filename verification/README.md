# softhddevice-drm: a verified model of the render and OSD core

This project models the core of vdr-plugin-softhddevice-drm, the VDR output
device for DRM/KMS displays. The model covers the following parts.

- **Render side** (video.h, video_drm.c):
  - the render structure with its two frame rings and its framebuffer pool;
  - framebuffer set-up and tear-down for dmabuf (prime) and dumb buffers;
  - the Frame2Display loop: finding or creating a frame's framebuffer, and the
    audio/video synchronisation that drops, repeats or shows a frame;
  - the atomic page-flip request for the video and OSD planes;
  - routing of decoded frames to the deinterlace filter, the display ring or
    the software copy, and the filter thread's side of that;
  - closing, pause, trick speed and statistics;
  - the helpers `Video_get_format`, `VideoGetDecoderName`, the mode search and
    zpos normalisation.
- **Codec** (codec.c): the pass-through mask, the downmix toggle, the audio
  clock in 90 kHz ticks, the rule that decides whether a decoded video frame is
  rendered, and the `get_format` callback.
- **Plugin front end** (softhddevice-drm.cpp):
  - the hot-key state machine of the plugin menu and `HandleHotkey`;
  - how the AudioPassthrough setting is stored and parsed back;
  - the integer clipping of `cSoftOsd::Flush`.
- **OpenGL OSD** (openglosd.cpp):
  - the image cache of the GL thread;
  - the glyph kerning caches;
  - the pixmap table of `cOglOsd` with `CreatePixmap`, `DestroyPixmap` and
    `Flush`;
  - the text placement of `cOglPixmap::DrawText`.

Modules follow the source files:

| module | file | models |
|---|---|---|
| `Common` | common.dfy | C arithmetic: truncating division, 32-bit `int` wrap-around, bits |
| `VideoTypes` | video_types.dfy | video.h's records |
| `FrameRings` | frame_ring.dfy | the two rings |
| `DrmBuffers` | drm_buffers.dfy | SetupFB, DestroyFB, AddFbForBo |
| `AvSync` | av_sync.dfy | the drop/duplicate/show policy |
| `PlaneProps` | plane_props.dfy | atomic property requests |
| `VideoHelpers` | video_helpers.dfy | format, decoder name, filter choice, mode search, zpos |
| `Render` | render.dfy | the render structure and its threads' steps |
| `Codec` | codec.dfy | codec.c |
| `Hotkeys` | hotkeys.dfy | menu keys, hot keys, the pass-through setting |
| `OsdClip` | osd_clip.dfy | cSoftOsd::Flush |
| `OglCache` | ogl_cache.dfy | the GL thread's image cache |
| `OglOsd` | ogl_osd.dfy | kerning, pixmaps, text alignment |

State the source changes in place is modelled as it is in the source:

- the render structure, the rings, the settings, the menu, the OSDs, the GL
  thread and the glyphs are classes whose methods modify their fields;
- each ring buffer is an `array`;
- every method is proved against a specification function, and the properties
  the source relies on are proved about those functions.

The outside world enters as parameters: the kernel's and ffmpeg's replies, the
clock values, and the device-tree text.

## Model

| member | source | states |
|---|---|---|
| FrameRings.RingStore | video.h:82-90 | storing at the write index of a ring holding n frames appends the frame to the queued contents |
| FrameRings.FrameRing.constructor | video.h:82-90 | a fresh ring is empty, with every index at 0 |
| FrameRings.FrameRing.Push | video_drm.c:1624-1626 | the queue gains the frame at its back; only the write slot of the buffer changes; the write index wraps modulo VIDEO_SURFACES_MAX |
| FrameRings.FrameRing.Front | video_drm.c:1032 | the frame at the read index is the oldest queued frame |
| FrameRings.FrameRing.Pop | video_drm.c:974-977 | returns the oldest frame and removes exactly it; the read index wraps |
| FrameRings.FrameRing.Drain | video_drm.c:971-980 | pops until the ring is empty and returns exactly the queued frames, oldest first |
| DrmBuffers.SetupFB | video_drm.c:790-908 | the framebuffer and the call sequence equal the specification of both paths, and the buffer record stays valid |
| DrmBuffers.SetupPrime | video_drm.c:815-829 | prime path: import the dmabuf and add the framebuffer with the frame's modifiers; a failed add is fatal and leaves the fb id as it was |
| DrmBuffers.DumbPlanes | video_drm.c:859-907 | per-plane handle, pitch and offset of a dumb buffer for NV12, YUV420 and ARGB8888 |
| DrmBuffers.SetupDumb | video_drm.c:830-907 | dumb path: create, lay out, add the framebuffer, map; a failed AddFB2 is fatal, a failed create or map is a plain failure |
| DrmBuffers.DestroyFB | video_drm.c:918-957 | unmap and destroy a dumb buffer, or close a prime handle; always remove the framebuffer; clear the record |
| DrmBuffers.DumbLayoutFitsRequest | video_drm.c:859-907 | for an even-sized YUV420 or NV12 buffer the planes follow each other without gap or overlap and end exactly at the 12-bits-per-pixel size asked of the kernel |
| DrmBuffers.SetupThenDestroyDumb | video_drm.c:830-957 | after a successful dumb set-up, DestroyFB unmaps, removes the framebuffer and destroys the dumb object with the same address, size, id and handle, and closes the exported fd |
| DrmBuffers.SetupThenDestroyPrime | video_drm.c:815-829 | after a successful prime set-up, DestroyFB removes the added framebuffer and closes the GEM handle, leaving the decoder's dmabuf fd open |
| DrmBuffers.DestroyTwice | video_drm.c:918-957 | repeating DestroyFB on a dumb buffer only removes framebuffer 0; on an imported one it closes the same GEM handle again |
| DrmBuffers.AddFbForBo | video_drm.c:733-780 | a framebuffer exists iff the modifier call succeeds or the plain fallback does; the attempts are made in the source's order; the modifier attempt carries the bo's size, format, planes and modifier with a zero tail, the fallback the single handle and stride |
| AvSync.SyncDiff | video_drm.c:1078 | the difference lands in 32-bit int, and it is exact whenever it fits |
| AvSync.Classify | video_drm.c:1080-1097 | drop below -5 ms, duplicate above 35 ms, show otherwise; within ±5000 ms only; trick speed always shows |
| AvSync.DesyncAlwaysShows | video_drm.c:1080-1097 | a gap beyond five seconds is neither dropped nor duplicated |
| AvSync.ClassifyMonotone | video_drm.c:1080-1097 | inside the guard band, a later frame never gets a more drastic action than an earlier one |
| AvSync.WorkedExamples | video_drm.c:1078-1097 | concrete differences are dropped, duplicated or shown as the thresholds say |
| AvSync.IntMinIsDropped | video_drm.c:1080 | abs(INT_MIN) wraps to a negative value, so that difference escapes the guard band and is dropped |
| PlaneProps.CommitUntouched | video_drm.c:200-258 | a property no request entry sets keeps its value |
| PlaneProps.CommitLast | video_drm.c:200-258 | the last request entry for a property wins |
| PlaneProps.CommitAppend | video_drm.c:200-258 | committing two requests in turn equals committing their concatenation |
| PlaneProps.ToFixed16 | video_drm.c:235-236 | SRC_W and SRC_H are sent in 16.16 fixed point |
| PlaneProps.FromFixed16 | video_drm.c:1146 | reading back shifts the fraction away |
| PlaneProps.CommitSrc | video_drm.c:230-237 | SetPlaneSrc sets exactly SRC_X, SRC_Y, SRC_W and SRC_H |
| PlaneProps.CommitCrtc | video_drm.c:221-228 | SetPlaneCrtc sets exactly CRTC_X, CRTC_Y, CRTC_W and CRTC_H |
| PlaneProps.CommitPlane | video_drm.c:211-258 | SetPlane sets the CRTC, the framebuffer and the destination and source rectangles |
| PlaneProps.CommitChangePlanes | video_drm.c:260-281 | SetChangePlanes sets only the two zpos values |
| PlaneProps.SrcGet | video_drm.c:230-237 | after SetPlaneSrc, SRC_X and SRC_Y read back their arguments and SRC_W and SRC_H the 16.16 sizes; every other property keeps its value |
| PlaneProps.CrtcGet | video_drm.c:221-228 | after SetPlaneCrtc, CRTC_X, CRTC_Y, CRTC_W and CRTC_H read back their arguments; every other property keeps its value |
| PlaneProps.FbIdGet | video_drm.c:211-214 | after SetPlaneFbId, FB_ID reads back the id |
| PlaneProps.PlaneGet | video_drm.c:211-258 | after SetPlane, CRTC_ID, FB_ID, the four CRTC properties, SRC_X and SRC_Y read back their arguments, SRC_W and SRC_H the 16.16 sizes; every other property keeps its value |
| PlaneProps.ChangePlanesGet | video_drm.c:260-281 | `back` puts the video plane on the overlay zpos and the OSD on the primary zpos, the other way round without it, and no other property changes |
| PlaneProps.ChangePlanesStacking | video_drm.c:260-281 | with the overlay zpos above the primary one, the video is stacked above the OSD iff `back` is set |
| PlaneProps.SrcWidthReadBack | video_drm.c:1146 | the width read back from SRC_W is the one set |
| PlaneProps.ChangePlanesRoundTrip | video_drm.c:260-281 | a request without `back` followed by one with it leaves the planes exactly as the second request alone does |
| VideoHelpers.GetFormat | video_drm.c:1546-1567 | picks the first DRM_PRIME or YUV420P format offered, and defers to the library default iff none is offered |
| VideoHelpers.DecoderName | video_drm.c:2211-2217 | h264 is decoded by h264_v4l2m2m; every other codec by its own name |
| VideoHelpers.ChooseFilter | video_drm.c:1734-1744 | v4l2 deinterlacing for interlaced prime frames, a bwdif chain for interlaced YUV420P, scale for progressive YUV420P, none otherwise; the timestamp fix-up flag iff bwdif is deinterlacing |
| VideoHelpers.SearchModes | video_drm.c:486-512 | the loop, with its restarts, returns the mode the four-pass preference Select chooses |
| VideoHelpers.PassKeepsLastMatch | video_drm.c:486-512 | one pass over the connector's modes keeps the last matching mode, or the current one if none matches |
| VideoHelpers.SelectPreference | video_drm.c:486-512 | a progressive mode is chosen in the order 1920x1080@50, 1280x720@50, 1920x1080@60, 1280x720@60 (the `hdr` flag marks the 720-line passes); no mode is chosen iff none of the four exists |
| VideoHelpers.NormalizeZpos | video_drm.c:607-626 | with zpos in use the overlay ends up above the primary; a pair already ordered is kept |
| Render.Fds | video.h:118 | one prime fd per pooled buffer, in pool order |
| Render.Locate | video_drm.c:1036-1041 | finds the first pooled buffer with the frame's fd, and finds none iff no pooled buffer has that fd |
| Render.LocateFirst | video_drm.c:1036-1041 | an index holding the fd, with no earlier index holding it, is the one the search returns |
| Render.LocateAsWritten | video_drm.c:1036-1050 | the search as written: on a miss the previous frame's buffer index survives |
| Render.StaleBufferAfterDrop | video_drm.c:1036-1094 | after a drop jumps back, a frame whose fd is not pooled still carries the previous buffer index |
| Render.StaleOnlyOnMiss | video_drm.c:1036-1050 | the as-written search agrees with the corrected one on every hit |
| Render.SlotAsWritten | video_drm.c:1036-1050 | the entry written as the source has it: the first holding the fd, else the next one past the pool, with no bound |
| Render.GrowAsWritten | video_drm.c:1042-1050 | as written, each frame on a new dmabuf appends an entry to the pool; the pool never shrinks |
| Render.GrowDistinct | video_drm.c:1042-1050 | frames on distinct new dmabufs each add one entry, in order |
| Render.PoolOverflowAsWritten | video_drm.c:1042-1050 | after 36 distinct dmabufs a 37th is given entry 36, one past the end of the 36-entry bufs[] (video.h:118) |
| Render.PicWidth | video_drm.c:1135-1141 | the picture width is the frame's width when it fits the display, else the display width |
| Render.SoftwareFrame | video_drm.c:1608-1620 | the copy of a software frame is a displayable DRM_PRIME frame on the chosen dumb buffer, keeping pts and size |
| Render.SoftwareTemplate | video_drm.c:1576-1595 | a software buffer is an NV12 buffer of the frame's size |
| Render.NextSoftware | video_drm.c:1628-1630 | the software buffer index cycles through the five buffers |
| Render.RouteFrame | video_drm.c:1846-1874 | a frame is freed when closing or when the filter cannot start; deinterlaced when it needs the filter; displayed when it is DRM_PRIME; copied otherwise |
| Render.SoftwareFramesFiltered | video_drm.c:1850-1865 | interlaced YUV420P frames never reach the copy path |
| Render.CopiedFormats | video_drm.c:1866-1873 | only formats other than DRM_PRIME and YUV420P are copied |
| Render.FilterAlwaysDescribed | video_drm.c:1734-1744 | every frame sent to the filter has a filter description |
| Render.FailedInitBypasses | video_drm.c:1724-1825 | after a failed filter set-up, hardware deinterlacing is off, so later prime frames go straight to display |
| Render.FilterPts | video_drm.c:1692-1693 | with the filter fix-up, timestamps are halved with C's division |
| Render.FilterPtsUndoesDoubling | video_drm.c:1692-1693 | halving undoes bwdif's doubling of the timestamps |
| Render.SoftwareFrameFound | video_drm.c:1036-1041 | the display loop finds the copied frame's dumb buffer in the pool |
| Render.DoneCount | video_drm.c:1576-1595 | counts the buffers whose set-up completed |
| Render.DumbStatus | video_drm.c:830-907 | dumb set-up succeeds iff every kernel call does, and is fatal iff the create succeeds and AddFB2 fails |
| Render.VideoRender.BufOf | video.h:118 | the black buffer or the pooled buffer a reference names |
| Render.VideoRender.constructor | video_drm.c:607-626 | the render state starts with empty rings, an empty pool and normalised zpos values |
| Render.VideoRender.StartVideo | video_drm.c:1899-1908 | starting clears the pause and the start counter |
| Render.VideoRender.VideoPause | video_drm.c:1949-1955 | pausing sets the pause flag |
| Render.VideoRender.VideoSetTrickSpeed | video_drm.c:1963-1976 | sets the speed, clears the pause, and resets the start counter when leaving a pause; a non-zero speed clears closing |
| Render.VideoRender.VideoPlay | video_drm.c:1981-1991 | play leaves trick speed and pause and restarts the counter |
| Render.VideoRender.VideoGetStats | video_drm.c:2037-2043 | reports the duplicate, drop and start counters |
| Render.VideoRender.VideoSetAudioDelay | video_drm.c:2070-2073 | stores the audio delay |
| Render.VideoRender.ReadHWPlatform | video_drm.c:301-335 | the codec mode is 3 and hardware deinterlacing is off iff the device tree names bcm2711 |
| Render.VideoRender.VideoFilterInit | video_drm.c:1724-1825 | the description and fix-up flag are the chosen filter's; a graph that fails turns hardware deinterlacing off |
| Render.VideoRender.VideoRenderFrame | video_drm.c:1834-1875 | the frame goes where RouteFrame says, and every ring, pool and released list changes only as that destination requires |
| Render.VideoRender.RouteToFilter | video_drm.c:1850-1865 | a frame enters the deint ring iff the filter runs or starts; otherwise it is freed |
| Render.VideoRender.EnqueueFB | video_drm.c:1569-1631 | first use sets up five dumb buffers and is fatal iff one of them fails fatally; the copy lands in the display ring on the next buffer |
| Render.VideoRender.SetupSoftwareBuffers | video_drm.c:1576-1595 | the set-up loop fails iff some buffer fails fatally, and on success counts the completed buffers and leaves the first five pool entries as SoftwareBufs and the rest untouched |
| Render.SetupSoftware | video_drm.c:1576-1595 | the loop over the software buffers stops iff some buffer fails fatally; otherwise every buffer ends as SoftwareBufs says and the completed ones are counted |
| Render.SetupSoftwareBuffer | video_drm.c:1576-1595 | one buffer of the loop: fatal iff the replies make the dumb path fatal, complete iff they make it succeed, and otherwise the buffer ends as SoftwareBuf says |
| Render.SoftwareBufsAt | video_drm.c:1576-1595 | entry j after the loop is pool entry j sized as NV12, set up as a dumb buffer and exported with the j-th replies |
| Render.SoftwareBufsLength | video_drm.c:1576-1595 | the loop leaves as many buffers as it visited |
| Render.SoftwareBufsStep | video_drm.c:1576-1595 | one more turn of the loop extends the finished prefix by the next buffer and leaves the rest of the pool alone |
| Render.VideoRender.PushSoftware | video_drm.c:1608-1630 | the display ring gains the copy on the current buffer, the input is freed, and the index advances |
| Render.VideoRender.FilterTakeInput | video_drm.c:1642-1660 | the filter thread takes the oldest deint frame unless it is told to close |
| Render.VideoRender.FillFrame | video_drm.c:1686-1703 | a filtered frame is freed on close, retried while the display ring is full or closing, and otherwise queued or copied |
| Render.VideoRender.FilterExit | video_drm.c:1706-1715 | the filter thread's exit clears its close request and its running flag |
| Render.VideoRender.FindBuffer | video_drm.c:1036-1041 | the loop returns the index Locate gives on the pool's fds |
| Render.VideoRender.LocateBuffer | video_drm.c:1036-1050 | with the corrected buffer search and the pool bound: returns the pooled buffer holding the frame's fd, creating and appending one on a miss; a miss on a full pool is fatal, and a fatal outcome leaves the pool as it was |
| Render.VideoRender.Frame2DisplayStep | video_drm.c:1006-1126 | with the corrected buffer search and the pool bound (a new dmabuf with 36 buffers pooled is fatal): one display step shows black only when closing, takes a frame off the ring only to drop or show it, and duplicates exactly as the sync policy decides |
| Render.VideoRender.DequeueFront | video_drm.c:1015-1066 | with the corrected buffer search and the pool bound: closing shows black, an empty ring waits, a front frame on a new dmabuf with a full pool is fatal, and otherwise the front frame's buffer is located |
| Render.VideoRender.PageFlip | video_drm.c:1128-1219 | the target becomes the active buffer and the video plane scans it out at the picture width; a dirty OSD is raised when shown and lowered or emptied when hidden; a clean one is left alone; the OSD is no longer dirty |
| Render.VideoRender.AfterFlip | video_drm.c:1264-1271 | after a flip the previously shown frame is freed and the new one remembered |
| Render.VideoRender.CleanDisplayThread | video_drm.c:962-1001 | every queued frame and the last shown one are freed in order, the pool is destroyed and emptied, and the filter is asked to close |
| Render.VideoRender.FreeFrames | video_drm.c:967-980 | the last frame and the display ring are freed, oldest first |
| Render.VideoRender.DrainRing | video_drm.c:974-977 | draining releases the ring's frames in queue order and leaves it empty |
| Render.VideoRender.ReleasePool | video_drm.c:982-992 | the pool is destroyed and emptied, and the filter thread is asked to stop |
| Render.VideoRender.DestroyPool | video_drm.c:986-991 | DestroyFB runs on each pooled buffer |
| Render.VideoRender.VideoSetClosing | video_drm.c:1915-1944 | closing resets the counters and trick speed; with a pool it shows black and then cleans up; without one nothing else changes |
| Render.VideoRender.CloseDisplay | video_drm.c:1922-1939 | the closing branch ends in the state ClosedAfter describes |
| Render.VideoRender.BlackShown | video_drm.c:1015-1023 | showing black while closing leads to the cleaned-up state |
| Render.VideoRender.SyncStep | video_drm.c:1067-1126 | waits for an audio clock, or drops, duplicates or shows as the sync policy decides, with the counters moving accordingly |
| Render.VideoRender.DropFront | video_drm.c:1080-1095 | a drop counts, frees the front frame and starts the counter |
| Render.VideoRender.ShowFront | video_drm.c:1116-1123 | a show takes the front frame for display and counts it outside trick speed |
| Render.VideoPlaneRequest | video_drm.c:1135-1155 | after the request the plane scans out the buffer at its own width, scaled to the picture width; no property outside its FB, CRTC and SRC ones changes |
| Render.OsdPlaneRequest | video_drm.c:1182-1212 | a clean OSD adds nothing; a dirty shown OSD goes on top and gets its buffer if it had none; a hidden one goes under the video, or keeps its buffer with an empty source without zpos; only the video plane's zpos can change |
| Render.ShownOsdRequest | video_drm.c:1184-1199 | a dirty, shown OSD is raised to the overlay zpos and, when it has no framebuffer, gets the whole OSD buffer |
| Codec.PassthroughBits | codec.c:478-484 | only the PCM, AC3 and E-AC3 bits of the mask survive |
| Codec.DownmixAfter | codec.c:491-498 | -1 toggles the flag's low bit; any other value is stored |
| Codec.DownmixToggleTwice | codec.c:491-498 | toggling twice restores the flag |
| Codec.CodecSettings.SetAudioPassthrough | codec.c:478-484 | the stored mask is the masked argument |
| Codec.CodecSettings.SetAudioDownmix | codec.c:491-498 | the stored flag is DownmixAfter of the old one |
| Codec.Ticks | codec.c:547-548 | the frame length in 90 kHz ticks, rounded down, whenever the 32-bit product does not wrap |
| Codec.AudioDecodeStep | codec.c:510-554 | EAGAIN and errors hand nothing on; a frame is handed on iff one was decoded; a frame without pts is stamped with the clock plus its length |
| Codec.AudioDecoder.AudioDecode | codec.c:510-554 | the method's outcome and clock are the step's |
| Codec.UntimedRunAdvances | codec.c:543-550 | over frames without timestamps the clock advances by the sum of their lengths |
| Codec.TimedFrameResetsClock | codec.c:543-545 | a frame with its own pts resets the clock, whatever it was |
| Codec.VideoDecode | codec.c:230-321 | a frame is rendered iff it was received (or the uninitialised `got_frame` happened to be set), has a non-zero width equal to the context's, and the packet was not a flush; a zero-width frame from a failed receive is always freed; 0 is returned iff the packet must be sent again |
| Codec.VideoDecoder.GetFormatCallback | codec.c:100-113 | the callback records that it ran and returns Video_get_format's choice |
| Hotkeys.Step | softhddevice-drm.cpp:968-1014 | blue then one or two digits, or red then a digit, fire hot keys 0-99 and 100-109; every other key ends the sequence |
| Hotkeys.FallThroughHarmless | softhddevice-drm.cpp:1004-1013 | a non-digit, non-OK key after blue and a digit returns to the initial state with standard handling |
| Hotkeys.RunAppend | softhddevice-drm.cpp:962-1024 | running two key sequences one after the other is running their concatenation: the second starts where the first ends, and the fired codes are concatenated |
| Hotkeys.BlueTwoDigits | softhddevice-drm.cpp:968-996 | blue, d1, d2 fires hot key 10*d1+d2 |
| Hotkeys.BlueDigitOk | softhddevice-drm.cpp:968-1003 | blue, d, OK fires hot key d |
| Hotkeys.RedDigit | softhddevice-drm.cpp:968-1011 | red, d fires hot key 100+d |
| Hotkeys.FiredRange | softhddevice-drm.cpp:962-1024 | every fired code lies in 0..109 |
| Hotkeys.ApplyHotkey | softhddevice-drm.cpp:902-955 | 10 disables pass-through, 11 enables it, 12 toggles it; 13 and 14 move the delay by 10 ms; 15 toggles downmix; other codes change nothing |
| Hotkeys.TogglesUndo | softhddevice-drm.cpp:916-950 | hot keys 12 and 15 undo themselves |
| Hotkeys.DelayStepsCancel | softhddevice-drm.cpp:926-939 | hot keys 13 and 14 cancel each other |
| Hotkeys.PluginConfig.constructor | softhddevice-drm.cpp:70-73 | the settings start at zero |
| Hotkeys.PluginConfig.HandleHotkey | softhddevice-drm.cpp:902-955 | the settings become ApplyHotkey's, and the codec and renderer receive exactly the changes each code makes |
| Hotkeys.PluginConfig.StorePassthrough | softhddevice-drm.cpp:769-778 | the mask is rebuilt from the check boxes and the setting saved signed by the state |
| Hotkeys.PluginConfig.ParsePassthrough | softhddevice-drm.cpp:1716-1727 | a positive value enables pass-through with that mask, any other value disables it with the value's magnitude |
| Hotkeys.HotkeyMenu.constructor | softhddevice-drm.cpp:881-888 | the menu starts in the initial hot-key state |
| Hotkeys.HotkeyMenu.ProcessKey | softhddevice-drm.cpp:962-1024 | the key moves the menu as Step says; a fired code changes the settings, the codec's pass-through and downmix and the renderer's audio delay exactly as HandleHotkey does, and a key that fires nothing changes none of them |
| Hotkeys.HotkeyMenu.RedCase | softhddevice-drm.cpp:1005-1013 | the red branch moves the menu as RedStep says; a red digit changes the settings, the codec and the renderer exactly as HandleHotkey does for 100 plus the digit |
| Hotkeys.MenuMask | softhddevice-drm.cpp:769-771 | the mask holds one bit per checked codec, survives the codec's masking, and is zero iff none is checked |
| Hotkeys.EncodePassthrough | softhddevice-drm.cpp:772-778 | the saved value is the mask, negated when pass-through is off |
| Hotkeys.DecodePassthrough | softhddevice-drm.cpp:1716-1727 | a positive value means enabled; the mask is its magnitude |
| Hotkeys.PassthroughRoundTrip | softhddevice-drm.cpp:769-778 | parsing a stored non-empty setting gives back its state and mask |
| Hotkeys.EmptyMaskParsesDisabled | softhddevice-drm.cpp:1716-1727 | an empty mask is stored as 0 and parses back as disabled, even when it was enabled |
| OsdClip.ScreenClip | softhddevice-drm.cpp:288-302 | clipping at the right or bottom edge keeps the origin and the first column, and skips a bitmap wholly off screen |
| OsdClip.ClipAxisAsWritten | softhddevice-drm.cpp:268-302 | the clip as written, moving x1 before the width uses it |
| OsdClip.LeftClip | softhddevice-drm.cpp:268-287 | the corrected left clip drops exactly the columns left of the screen and keeps the origin |
| OsdClip.ClipAxis | softhddevice-drm.cpp:268-302 | the corrected clip keeps exactly the on-screen part of the dirty range, with a buffer as wide as what is copied |
| OsdClip.LeftClipAsWrittenWrong | softhddevice-drm.cpp:268-287 | as written, a bitmap starting off screen gets a buffer wider than the columns copied, drawn shifted right |
| OsdClip.LeftClipExample | softhddevice-drm.cpp:268-287 | the concrete case: 100 columns at x 10 as written, 90 at x 0 corrected |
| OsdClip.BoxToDraw | softhddevice-drm.cpp:248-255 | a forced flush draws the whole bitmap, otherwise its dirty box, and nothing iff neither applies |
| OsdClip.BitmapUpload | softhddevice-drm.cpp:234-329 | with the corrected left clip: an upload copies an on-screen box of the bitmap into a buffer of exactly its size |
| OsdClip.AfterFlush | softhddevice-drm.cpp:321-328 | an uploaded bitmap is cleaned; a skipped one is untouched |
| OsdClip.UploadsOnScreen | softhddevice-drm.cpp:234-329 | with the corrected left clip: every upload of a flush lies on the screen and fills its buffer exactly |
| OsdClip.ClipPixAxis | softhddevice-drm.cpp:342-397 | a pixmap viewport is clipped to the OSD and the screen without moving its pixels |
| OsdClip.PixmapDraw | softhddevice-drm.cpp:342-403 | the draw call lies on the screen and inside the pixmap, at the position the viewport gives |
| OsdClip.SoftOsd.constructor | softhddevice-drm.cpp:151-162 | the OSD starts with its bitmaps, and the forced-redraw flag keeps the value earlier OSDs left |
| OsdClip.SoftOsd.SetActive | softhddevice-drm.cpp:120-140 | no change does nothing; switching off closes the OSD; switching on sets the forced-redraw flag and, with a bitmap, flushes at once with every bitmap forced |
| OsdClip.SoftOsd.SetAreas | softhddevice-drm.cpp:182-200 | a palette OSD's bitmaps are all cleaned; an active OSD is cleared and sets the forced-redraw flag, an inactive one leaves it |
| OsdClip.CleanAll | softhddevice-drm.cpp:189-196 | every bitmap is kept with its dirty box removed |
| OsdClip.SoftOsd.Flush | softhddevice-drm.cpp:207-408 | with the corrected left clip: an inactive OSD draws nothing and changes nothing; a palette OSD uploads Uploads of its bitmaps and leaves each bitmap as AfterFlush says; a true-colour one draws its rendered pixmaps; afterwards the forced-update flag is clear |
| OsdClip.SoftOsd.FlushBitmaps | softhddevice-drm.cpp:234-329 | with the corrected left clip: the uploads are Uploads of the old bitmaps, each bitmap ends as AfterFlush says, and the forced-update flag is cleared |
| OsdClip.UploadEach | softhddevice-drm.cpp:234-326 | with the corrected left clip: the loop over the bitmaps uploads exactly Uploads of them, in order, and leaves every bitmap as AfterFlush says |
| OsdClip.FlushedStep | softhddevice-drm.cpp:234-326 | cleaning or keeping bitmap i as AfterFlush says extends the flushed prefix by one |
| OsdClip.SoftOsd.FlushPixmaps | softhddevice-drm.cpp:332-407 | one draw call per rendered pixmap, each as PixmapDraw says |
| OglCache.CachedBytesUpdate | openglosd.cpp:2027-2126 | replacing one slot changes the cached total by the difference of the two images |
| OglCache.EmptyCacheHoldsNothing | openglosd.cpp:1976-1991 | a cache of free slots holds no bytes |
| OglCache.HandleOf | openglosd.cpp:2084-2095 | image handles are negative |
| OglCache.IndexOf | openglosd.cpp:2109-2114 | a handle names a slot iff it is negative |
| OglCache.HandleRoundTrip | openglosd.cpp:2084-2114 | slot to handle to slot is the identity, and so is handle to slot to handle |
| OglCache.FirstFree | openglosd.cpp:2084-2095 | the lowest unused slot, or none iff every slot is used |
| OglCache.OglThread.constructor | openglosd.cpp:1976-1991 | the cache starts empty, with the size limit in bytes |
| OglCache.OglThread.ImageRef | openglosd.cpp:2109-2114 | a handle resolves to a slot iff it is in range |
| OglCache.OglThread.GetFreeSlot | openglosd.cpp:2084-2095 | returns 0 iff the cache is full, otherwise the handle of the lowest free slot, which it marks used |
| OglCache.OglThread.ClearSlot | openglosd.cpp:2097-2107 | frees the slot a valid handle names and nothing else |
| OglCache.OglThread.DoCmd | openglosd.cpp:2008-2025 | the command is queued last |
| OglCache.OglThread.DropImageData | openglosd.cpp:2116-2126 | the image's bytes leave the cached total and its slot is freed |
| OglCache.OglThread.StoreImage | openglosd.cpp:2027-2082 | a handle is returned iff the cache is set, the image fits a texture and the cache limit, a slot is free, the copy is allocated and the texture is non-zero; an image too big for a texture, or one that would exceed the cache limit, is refused with 0 and changes nothing; any refusal leaves the byte count and which slots are in use as they were (a slot taken for a failed copy or upload is freed again); a stored image occupies the lowest free slot with a non-zero texture, and its bytes are counted |
| OglCache.OglThread.FillSlot | openglosd.cpp:2054-2081 | once a slot is taken, the handle is returned iff the copy is allocated and the texture is non-zero; a failed copy or a failed upload returns 0, frees the slot again and leaves the cached byte count as it was; otherwise the slot holds the image with its non-zero texture and its bytes are added |
| OglCache.OglThread.IndexIsNotHandle | openglosd.cpp:1998-2003 | a slot index is never a valid handle |
| OglCache.OglThread.StopAsWritten | openglosd.cpp:1998-2006 | as written, Stop leaves the cache and the total unchanged |
| OglCache.OglThread.Stop | openglosd.cpp:1998-2006 | corrected, Stop frees every slot and the total drops to 0 |
| OglOsd.LatestKerning | openglosd.cpp:412-418 | the kerning of the newest entry for the symbol; unknown when none exists past index 0 |
| OglOsd.StoredKerningFound | openglosd.cpp:420-422 | after storing, the value is found again |
| OglOsd.OtherSymbolsUnaffected | openglosd.cpp:412-422 | storing one symbol's kerning does not change what another symbol finds |
| OglOsd.FirstPairStoredTwice | openglosd.cpp:412-418 | the first entry is never read, so its symbol is computed and stored again |
| OglOsd.Glyph.constructor | openglosd.cpp:397-405 | a glyph starts with an empty kerning cache |
| OglOsd.Glyph.GetKerningCache | openglosd.cpp:412-418 | the search from the back returns LatestKerning |
| OglOsd.Glyph.SetKerningCache | openglosd.cpp:420-422 | the pair is appended to the cache |
| OglOsd.Kerning | openglosd.cpp:819-833 | 0 for no glyph or no previous symbol; the cached value when known; otherwise the font's delta in whole pixels, which is then cached |
| OglOsd.FirstNull | openglosd.cpp:2667-2669 | the lowest empty slot of the table, if any |
| OglOsd.AfterCreate | openglosd.cpp:2665-2672 | the new pixmap goes into the lowest empty slot, or is appended |
| OglOsd.CreateFillsLowestNull | openglosd.cpp:2665-2672 | creation keeps ids distinct, fills the lowest empty slot and leaves every other slot alone |
| OglOsd.FindPixmap | openglosd.cpp:2687-2688 | the first slot at or after `start` holding the pixmap, or none iff there is no such slot |
| OglOsd.AfterDestroy | openglosd.cpp:2687-2691 | the found slot is emptied, and slot 0 is marked dirty when the pixmap is on a visible layer |
| OglOsd.DestroyNullsMatch | openglosd.cpp:2684-2695 | destroying empties the match and changes no other slot except slot 0's dirty flag; without a match the table is unchanged |
| OglOsd.SlotZeroKept | openglosd.cpp:2646-2649 | on a non-subtitle OSD, destroying the pixmap in slot 0 does nothing |
| OglOsd.MainPixmapMakesDestroyDefined | openglosd.cpp:2687-2691 | with slot 0 in use, every destroy is defined |
| OglOsd.LayerSlotsExact | openglosd.cpp:2714-2716 | one layer's pass visits exactly the slots whose pixmap is on that layer, in slot order |
| OglOsd.InLayerSlots | openglosd.cpp:2714-2716 | a slot holding a pixmap on the layer is visited by that layer's pass |
| OglOsd.RenderedOnlyBelow | openglosd.cpp:2713-2731 | a slot the flush visits holds a pixmap on a layer from 0 to 7 |
| OglOsd.RenderedAllBelow | openglosd.cpp:2713-2731 | every pixmap on a layer from 0 to 7 is visited by the flush |
| OglOsd.FlushSlotsValid | openglosd.cpp:2713-2731 | the flush visits only slots of the table |
| OglOsd.FlushSlotsOrdered | openglosd.cpp:2713-2731 | the flush visits layers in ascending order |
| OglOsd.FlushSlotsCover | openglosd.cpp:2713-2731 | a slot is rendered iff it holds a pixmap on a layer from 0 to 7 |
| OglOsd.RenderCmdsAppend | openglosd.cpp:2714-2729 | rendering a concatenation of slots gives the concatenated commands |
| OglOsd.LayerCmdsRenderSlots | openglosd.cpp:2714-2729 | one layer's commands render that layer's slots in order |
| OglOsd.FlushCmdsRenderSlots | openglosd.cpp:2713-2731 | the flush's commands render the flush's slots in order, subtitles at y 0 |
| OglOsd.Flushed | openglosd.cpp:2713-2731 | each pixmap on layers 0 to 7 is cleaned; the rest are untouched |
| OglOsd.FlushSettles | openglosd.cpp:2702-2731 | when every layer is below 8, a flush leaves nothing dirty to flush |
| OglOsd.HighLayerKeepsFlushing | openglosd.cpp:2702-2731 | in a table holding a pixmap on layer 8 or above, a state VDR's layer clamping never produces: that pixmap stays dirty, so every flush draws again |
| OglOsd.OglOsdTable.Start | openglosd.cpp:2684-2686 | the destroy search starts at slot 0 iff the OSD is a subtitle OSD |
| OglOsd.OglOsdTable.constructor | openglosd.cpp:2590-2610 | a new OSD is not a subtitle OSD and has no pixmaps |
| OglOsd.OglOsdTable.SetAreasSubtitle | openglosd.cpp:2634-2635 | more than one area makes the OSD a subtitle OSD, and it stays one |
| OglOsd.OglOsdTable.CreatePixmap | openglosd.cpp:2658-2674 | an inactive thread or a refused pixmap gives none; otherwise a dirty pixmap lands where AfterCreate says |
| OglOsd.OglOsdTable.DestroyPixmap | openglosd.cpp:2676-2696 | nothing for an inactive thread or a null pixmap; otherwise the table becomes AfterDestroy's |
| OglOsd.OglOsdTable.Flush | openglosd.cpp:2698-2740 | nothing without a dirty visible pixmap; otherwise fill, each layer's render commands, buffer fill and copy at the OSD origin, leaving the table Flushed |
| OglOsd.OglOsdTable.AnyVisibleDirty | openglosd.cpp:2702-2706 | the early-exit loop finds a dirty pixmap on a visible layer iff there is one |
| OglOsd.OglOsdTable.RenderLayer | openglosd.cpp:2714-2729 | one layer's pass issues LayerCmds and cleans what it renders |
| OglOsd.BorderIndent | openglosd.cpp:2461-2467 | the border indent is a tenth of the font height, at least 1 pixel |
| OglOsd.AlignText | openglosd.cpp:2440-2484 | left text starts at the box (plus border), right text ends at it (minus border), centred text has margins differing by at most 1; vertically top, bottom or centred likewise; limitX is the box's right edge |

## Left out

- Threads, mutexes, condition waits and the sleeps of the display, decoder,
  filter and GL threads: each thread's step is a method, and the other
  threads' answers are parameters.
- The kernel: every DRM ioctl's reply is a parameter, so the model does not
  capture what the kernel does with a request.
- ffmpeg: the decoders and the filter graph are not modelled. Their return
  values, frames and the graph's success are parameters.
- Floating point: the aspect ratio, the pixel aspect of the OSD, and the
  conversion of `video_pts` to milliseconds. The model takes the millisecond
  values as given.
- EGL, GLES and FreeType: the GL command bodies, texture creation, the glyph
  atlas packing and font metrics. The kerning delta, text widths and the GL
  thread's texture are parameters.
- Pixel copies: the NV12 copy of a software frame, OsdDrawARGB's memory copies
  and the ARGB data of images are not modelled; only sizes and positions are.
- I/O: the device-tree file read of ReadHWPlatform becomes a string parameter,
  and the log output and the Skins messages of HandleHotkey are dropped.
- ResetChannelId after a downmix toggle is a call into VDR and is not part of
  this model.
- Codec.CodecSettings.SetAudioPassthrough: models the build with
  USE_PASSTHROUGH defined, as codec.c:32 defines it; without it the call does
  nothing.
- Hotkeys.PluginConfig.HandleHotkey: the configuration globals are `char` in
  the source. The model keeps them as unbounded integers, so it does not model
  their 8-bit wrap-around or the `char` narrowing of the pass-through mask.
- Hotkeys.PluginConfig.ParsePassthrough: takes the integer `atoi` would
  return and requires it to fit in 32 bits; parsing text is left out.
- Codec.VideoDecode: `got_frame` (codec.c:236) is read uninitialised when no
  frame was received; its indeterminate value is the parameter
  `staleGotFrame`. The contract assumes nothing about it, and shows that a
  failed receive cannot render as long as the frame's width is 0. That the
  freshly allocated or unreferenced frame has width 0 is the decoding
  library's behaviour and is not part of this model.
- Render.VideoRender.ReadHWPlatform: requires the content to be empty (a
  failed `fopen`) or to end in a NUL byte. The device-tree format guarantees
  this for `compatible`. On unterminated content the source's
  `read_size -= strlen(read_ptr) + 1` (video_drm.c:329-330) wraps around its
  `size_t` and the search reads past the buffer. Two cases of
  ReadLineFromFile (video_drm.c:283-299) are not modelled either. An empty or
  unreadable file makes `getline` return `(size_t)-1`, which the `!read_size`
  test does not catch. Content of 128 bytes or more makes `getline`
  reallocate only its local copy of the buffer, so the caller searches and
  frees its stale `txt_buf`.
- Codec.AudioDecodeStep and Codec.AudioDecoder.AudioDecode: a frame without
  a pts is stamped by dividing by its sample rate (codec.c:546-548); the model
  requires that rate to be non-zero, so the source's division by zero is not
  modelled.
- OsdClip.SoftOsd: `Dirty` is one static flag shared by every cSoftOsd
  (softhddevice-drm.cpp:99, 110); the model keeps it in each object, and the
  constructor takes the value earlier OSDs left as a parameter.
- OsdClip.SoftOsd.SetAreas: VDR's cOsd::SetAreas, which replaces the bitmaps,
  is not part of this model; only the part before it is modelled.
  Whether the OSD is active is a parameter of SetActive, SetAreas and Flush.
- Screen coordinates and `last_pts` are unbounded integers; their 32-bit or
  64-bit overflow is not modelled.
- OglCache.OglThread.constructor: takes the cache limit as a natural number;
  negative configured sizes are not modelled. The limit in bytes,
  `maxCacheSize * 1024 * 1024`, is computed without bound, whereas the
  source's `int` product (openglosd.cpp:1979) overflows from 2048 MB up.
- OglCache.OglThread.Stop: the GL thread's cancel and the stall flag are not
  modelled.
- The stall hysteresis of the GL thread's command queue is not modelled.
- Hotkeys.HotkeyMenu.ProcessKey: standard key handling by cOsdMenu::ProcessKey
  and the menu's own items are not modelled. The reply `Standard` stands for
  them.
- Hotkeys.HotkeyMenu.constructor: the source leaves HotkeyCode unset before
  the first hot-key sequence; the model starts it at 0. No reply depends on it.
- The base-class bookkeeping of cOsd::AddPixmap and cOsd::DestroyPixmap is
  not part of this model. Whether AddPixmap accepts the pixmap is a parameter.
- The background rectangle and the glyph drawing of cOglPixmap::DrawText are
  not modelled; only the placement of the text is.
- cOglOsd::SetAreas' framebuffer work and cOsd::SetAreas are not modelled; only its
  effect on the subtitle flag and the pixmap table is.
- OglOsd.OglOsdTable.DestroyPixmap: requires DestroyDefined. When a visible
  pixmap is destroyed while slot 0 is empty, the source calls SetDirty through
  a null pointer, which can only happen on a subtitle OSD.
  MainPixmapMakesDestroyDefined shows that the requirement always holds while
  slot 0 is in use.
- A pixmap's alpha and draw port are carried as given.
- The pass-through flag values (PCM 1, AC3 4, E-AC3 8) come from codec.h, and
  the text alignment flags and MAXPIXMAPLAYERS from VDR's osd.h. Neither file
  is part of this model; their values are written out as constants.
- The number of image slots of the GL thread (OGL_MAX_OSDIMAGES) is defined in
  a header that is not part of this model; it is the constructor's `slots`.
- VDR's own clamping of pixmap layers is not part of this model, so pixmaps
  on layers of 8 or above are kept as created.
- The CRTC mode set and the connector and plane discovery of FindDevice are
  not modelled, apart from its mode search and its zpos normalisation; the
  chosen mode, CRTC and plane ids are constructor parameters.

## Findings

| source | as written | input that shows it | evidently intended | confidence | as-written member | corrected member |
|---|---|---|---|---|---|---|
| softhddevice-drm.cpp:268-287 | the left clip moves `x1` to the first visible column, then computes the upload width from the moved `x1`, and sets the origin to 0 | a bitmap at x -10 with dirty columns 0..99 on a 1920-wide screen | upload columns 10..99 (90 columns) at screen x 0 | not executed | OsdClip.ClipAxisAsWritten, OsdClip.LeftClipAsWrittenWrong, OsdClip.LeftClipExample | OsdClip.ClipAxis |
| openglosd.cpp:1998-2003 | Stop passes the slot index `i` to DropImageData, which expects a negative image handle, so no image is dropped | a cache holding one image in slot 0: Stop calls DropImageData(0), which finds no image | drop the image of every slot, passing its handle | not executed | OglCache.OglThread.StopAsWritten, OglCache.OglThread.IndexIsNotHandle | OglCache.OglThread.Stop |
| video_drm.c:1042-1050 | a frame whose fd is not pooled is given entry `render->buffers`, and `buffers` is incremented with no check against the 36 entries of bufs[] (video.h:118) | 37 frames on 37 distinct dmabufs: the 37th is written to bufs[36] | refuse a new buffer once the pool is full | not executed | Render.SlotAsWritten, Render.GrowAsWritten, Render.PoolOverflowAsWritten | Render.VideoRender.LocateBuffer, Render.VideoRender.DequeueFront |
| video_drm.c:1036-1050, 1094 | after a drop, `goto dequeue` re-runs the search without resetting `buf`, which is set to 0 only once before the label. A frame whose fd is not pooled keeps the previous frame's buffer | pool fds [7], previous buffer 0, next frame with fd 9 | a frame whose fd is not pooled gets a new buffer | not executed | Render.LocateAsWritten, Render.StaleBufferAfterDrop | Render.Locate, Render.VideoRender.LocateBuffer, Render.VideoRender.FindBuffer |
