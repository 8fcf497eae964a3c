# Screen-capture similarity monitor — Dafny model

This is a model of the small Qt desktop program that grabs the screen once a
minute. It compares each screenshot pixel by pixel with the previous one and
shows the percentage of identical pixels. The model covers two things:

- **the frame comparator** (`ScreenCapture::compareImages`). If the two images
  differ in size, it logs a warning and returns 0. Otherwise it walks every row
  top to bottom and every column left to right, counts the positions where the
  two 32-bit pixel values are equal, and returns `matches / (width * height) * 100`.
- **the capture cycle**. Start and Stop switch the repeating timer. On each timer
  fire the program:
  1. grabs the screen;
  2. displays the new screenshot;
  3. compares it with the stored previous screenshot;
  4. stores the new screenshot as the next previous one;
  5. shows the result on the similarity label. This update is queued and happens after step 4.

  The model performs steps 2 to 5 as one step.

Files:

- `frames.dfy` (module `Frames`):
  - images: `Rgb` is a 32-bit colour value, and `Image` is a width, a height and rectangular rows;
  - the row-major count of matching and differing positions (`CountInRow`, `CountInRows`);
  - the same positions as a set of coordinates (`Where`);
  - lemmas showing that the count and the set measure the same thing.
- `comparison.dfy` (module `Comparison`):
  - the comparator as a pure function `Compare`;
  - the comparator's nested loop as the method `CompareImages`, proved equal to `Compare`;
  - the properties of the percentage.
- `capture.dfy` (module `Capture`):
  - the window state `Monitor`: the timer running flag, the previous screenshot, the displayed screenshot and the similarity label;
  - the Start, Stop and compare operations, and a timer fire;
  - traces of button and timer events, checked against an independent account that tracks only the running flag (`RunningAfter`, `Captured`).

How the model represents the program:

- **No previous screenshot.** The window never sets the previous screenshot before the first capture. It is a default pixmap, which converts to a 0×0 null image, so the model starts with `Empty`.
- **Comparison result.** The result is a `Similarity`, which has three cases:
  - `SizeMismatch`: the warning path, which reports 0.0;
  - `Undefined`: two equal-size images with no pixels. The source divides 0 by 0 here and gets a NaN, so the model gives no number;
  - `Percent(value)`: the similarity.
- **Reported value.** `Similarity.Reported()` is the number that stands for the double the comparator returns, except on the 0/0 path, where the comparator returns a NaN and `Reported()` has no value. The label holds the `Similarity` itself.
- **Timer fires while stopped.** A stopped timer does not fire, so the model ignores a `TimerFired` event while the monitor is not running.
- **Event order.** A capture first shows the new screenshot and then compares it, in the order the source queues the two calls.

For two equal-size empty images the code divides 0 by 0 (main.cpp:121); the model
returns `Undefined` there. An image with no pixels is the null image, whose width
and height are both 0, so the model has no `w x 0` images.

## Model

| member | source | states |
|---|---|---|
| Frames.CountInRow | main.cpp:111-117 | the number of matching (or differing) pixels among the first n columns of a row is at most n |
| Frames.CountInRows | main.cpp:110-119 | the number of matching (or differing) pixels among the first k rows is at most k·width, so the comparator's counter never exceeds the area |
| Frames.CountIsCardinality | main.cpp:106-119 | the row-major count is exactly the number of coordinates (x, y), with x < width and y < height, where the pixels agree (or differ); each coordinate is counted once |
| Frames.MatchesPlusDifferences | main.cpp:110-119 | every position either matches or differs: matches + differences = width·height |
| Frames.CountsSymmetric | main.cpp:115 | swapping the two images leaves the match and difference counts unchanged |
| Frames.NoDifferencesIffEqual | main.cpp:110-119 | two equal-size images differ at no position if and only if they are the same image |
| Comparison.RatioBounds | main.cpp:121 | for 0 ≤ m ≤ n and n > 0, (m / n)·100 lies in [0, 100] and equals 100 exactly when m = n |
| Comparison.Compare | main.cpp:94-123 | the result is a size mismatch if and only if the sizes differ, and undefined (0/0) if and only if the sizes agree and the area is 0; otherwise it is a percentage in [0, 100] |
| Comparison.CompareImages | main.cpp:94-123 | the nested loop over y, then x, computes `Compare`; on equal non-empty sizes its result is 100 · (number of agreeing coordinates) / area |
| Comparison.MismatchReportsZero | main.cpp:98-101 | images of different sizes are reported as 0, whatever their pixels |
| Comparison.CompareIsShareOfMatches | main.cpp:106-121 | on equal non-empty sizes the percentage is the share of coordinates that hold equal pixels |
| Comparison.KDifferences | main.cpp:115-121 | equal-size images of N > 0 pixels that differ at exactly k coordinates have k ≤ N and similarity 100·(N−k)/N |
| Comparison.CompareSymmetric | main.cpp:98-115 | swapping the new and previous images gives the same result, on every path |
| Comparison.HundredIffIdentical | main.cpp:110-121 | for equal non-empty sizes the similarity is exactly 100 if and only if the two images are identical |
| Comparison.SelfIsHundred | main.cpp:110-121 | a non-empty image compared with itself reports 100 |
| Comparison.TwoByTwoExample | main.cpp:110-121 | a 2×2 white/white, black/black image against a white/black, black/black image reports 75 |
| Capture.Launch | main.cpp:14-44 | a new window has the timer stopped, the label at "N/A", the null (0×0) image as baseline and the launch screenshot on display |
| Capture.StartCapture | main.cpp:55-59 | Start sets the running flag and leaves the baseline, the displayed image and the label unchanged |
| Capture.StopCapture | main.cpp:61-65 | Stop clears the running flag and leaves the baseline, the displayed image and the label unchanged |
| Frames.NoPixelsIsNull | main.cpp:95-96 | an image has no pixels exactly when it is the null 0×0 image, as for an image converted from a default pixmap |
| Capture.CaptureScreen | main.cpp:67-75 | a capture displays the new screenshot, reports it against the old baseline and stores it as the new baseline; the running flag is unchanged |
| Capture.Step | main.cpp:31-36 | Start and Stop set and clear the running flag and change nothing else; a timer fire while stopped changes nothing; a timer fire while running captures the event's screen contents |
| Capture.CompareScreenshots | main.cpp:77-81 | the label reports the new screenshot compared with the old baseline, and afterwards the new screenshot is the baseline; the running flag and the displayed image are unchanged |
| Capture.RunAgreesWithCaptures | main.cpp:55-81 | after any sequence of button presses and timer fires, four facts hold. (1) The running flag follows the last button press. (2) The baseline is the last screenshot taken, or the original baseline if none was taken. (3) The displayed image is that same screenshot. (4) The label compares the last screenshot taken with the one before it |
| Capture.StoppedIgnoresFires | main.cpp:61-62 | while the timer is stopped and Start is not pressed, timer events change nothing |
| Capture.StartThenStop | main.cpp:55-65 | Start followed by Stop, with no timer fire between them, only clears the running flag: no capture happens, and the baseline, image and label are kept |
| Capture.FirstCaptureReportsZero | main.cpp:77-101 | the first capture after launch is compared with the empty baseline, so a non-empty screenshot reports a size mismatch (0), and that screenshot becomes the baseline |
| Capture.SecondCaptureComparesWithFirst | main.cpp:77-81 | of two consecutive captures while running, the second is reported against the first |

## Left out

- Widget construction, layout, label texts and colours, and the fixed window sizes (main.cpp:14-30). These are presentation only. The running indicator is the `running` flag.
- The label's two-decimal text formatting (main.cpp:84). The label holds the `Similarity` value, not its rendering.
- Screen grabbing (main.cpp:43, 68) and the conversion of a pixmap to an image (main.cpp:95-96). These are toolkit calls. Each screenshot is an input of the event that takes it.
- Rescaling the displayed screenshot with aspect ratio and smoothing (main.cpp:43, 89). This is floating-point resampling inside the toolkit. `displayed` holds the unscaled screenshot.
- The worker thread, `moveToThread` and the queued calls (main.cpp:33, 37-40, 47-48, 74, 79). The model runs one capture cycle as one sequential step, in queue order.
- The 60-second interval (main.cpp:56). A timer fire is an abstract event with no clock.
- The warning message of the mismatch path (main.cpp:99). The model keeps this path as the `SizeMismatch` result, not as a log line.
- Comparison.Compare: uses exact `real` arithmetic instead of the `double` division and its rounding (main.cpp:121).
- Comparison.Compare: treats `width * height` as an unbounded natural, not a 32-bit `int` that can overflow. Real screens are far below the overflow point.
- Frames.CountInRows: counts with an unbounded natural, not the 32-bit `int` counter (main.cpp:106). The counter is at most the area.
- Pixel reads outside the image (which `QImage::pixel` answers with a warning) are not modelled. The loops only read in-range coordinates of equal-size images.
