# Web page CO2 estimator — verified model of the measurement core

The estimator loads a web page twice in one browser context (a cold-cache
first visit, then a warm-cache return visit), sums the bytes of every network
response of each visit, converts each total into energy (kWh) and grams of
CO2-equivalent with a fixed linear model (0.81 kWh per GB, 442 g CO2e per
kWh), and grades each visit A–F from its CO2 figure.

This Dafny project models that core:

- `Emissions` (`emissions.dfy`): bytes to MB/GB (binary units), GB to kWh,
  kWh to grams of CO2e, over exact reals.
- `Grading` (`grading.dfy`): the ordered CO2 bands (inclusive upper bounds
  0.5, 1.0, 1.5, 2.0 g; F above) and the grade description table with its
  empty-string default.
- `ContentLength` (`content_length.dfy`): Python's `int()` on the
  content-length header value, which decides whether the header counts.
- `Accounting` (`accounting.dfy`): the response handler of one visit, as a
  `VisitMeter` object whose `HandleResponse` updates the running total, and
  `MeasureVisit`, the loop that feeds a visit's responses to it in arrival
  order, proved equal to the recursive sum `VisitTotal`.
- `Results` (`results.dfy`): the two-visit run and the result record
  (`url`, `model`, `first_visit`, `return_visit`), each visit's units derived
  from its byte count, and the grade shown for a visit.

A browser response is modelled by what the handler reads from it: the request
URL, the optional `content-length` header string, and the outcome of reading
the body (a length, or a failure). The browser, the network and the clock are
not modelled; each visit's stream of responses is an input.

Behaviour worth noting:

- Byte totals are not guaranteed non-negative. Python's `int()` accepts a
  leading minus sign, so a header `content-length: -5` adds −5
  (`Accounting.NegativeHeaderReachesTotal`). Non-negativity holds only when no
  header carries a minus sign (`Accounting.VisitTotalNonNegative`).
- Grades are computed from the unrounded `co2_g`, not from the one-decimal
  display value, on the fixed 0.5/1.0/1.5/2.0 scale.
- The result record holds `url`, `model`, `first_visit` and `return_visit`;
  the `model` entry holds the two constants and the notes, and every byte
  count is measured through the browser.
- A header that parses to 0 falls back to the body length just as a missing
  one does (`Accounting.BodyFallback`).

## Model

| member | source | states |
|---|---|---|
| `Emissions.BytesToMbGb` | nsc_web_co2_streamlit.py:14-17 | MB times 1024^2 and GB times 1024^3 give back the byte count, and MB is GB times 1024 |
| `Emissions.Co2ForBytes` | nsc_web_co2_streamlit.py:20-25 | energy times 1024^3 is bytes times the kWh-per-GB constant; CO2 is energy times the grid intensity |
| `Emissions.DefaultCo2ForBytes` | nsc_web_co2_streamlit.py:8-25 | with the default constants, energy times 1024^3 is bytes times 0.81, and CO2 times 1024^3 is bytes times 0.81 × 442 |
| `Emissions.ZeroBytesZeroEmissions` | nsc_web_co2_streamlit.py:14-25 | zero bytes give (0, 0) megabytes/gigabytes and (0, 0) energy/CO2 for any constants |
| `Emissions.Co2Closed` | nsc_web_co2_streamlit.py:20-25 | CO2 is bytes times the product of the two constants, divided by 1024^3 |
| `Emissions.Co2Additive` | nsc_web_co2_streamlit.py:20-25 | energy and CO2 of a + b bytes are the sums of those of a and b |
| `Emissions.Co2Monotone` | nsc_web_co2_streamlit.py:20-25 | with non-negative constants, more bytes never give less energy or less CO2 |
| `Emissions.Co2ScalesWithConstants` | nsc_web_co2_streamlit.py:20-25 | scaling either constant by s scales the CO2 figure by s |
| `Grading.GradeFromCo2` | nsc_web_co2_streamlit.py:28-42 | each grade holds exactly on its band: A iff ≤ 0.5, B iff in (0.5, 1.0], C iff in (1.0, 1.5], D iff in (1.5, 2.0], F iff > 2.0 |
| `Grading.LettersDistinct` | nsc_web_co2_streamlit.py:33-42 | every grade is reported as one of "A" "B" "C" "D" "F", and distinct grades as distinct letters |
| `Grading.GradeMonotone` | nsc_web_co2_streamlit.py:33-42 | a larger CO2 figure never earns a better grade (A > B > C > D > F) |
| `Grading.GradeBoundaryExamples` | nsc_web_co2_streamlit.py:33-42 | 0.5 is A, 0.51 and 1.0 are B, 1.5 is C, 2.0 is D, 2.1 is F |
| `Grading.GradeDescription` | nsc_web_co2_streamlit.py:45-53 | the description is non-empty exactly for the letters A, B, C, D, F; any other string gives "" |
| `Grading.DescriptionOfComputedGrade` | nsc_web_co2_streamlit.py:45-53 | the description of any computed grade is non-empty |
| `ContentLength.ParseInt` | nsc_web_co2_streamlit.py:89-92 | a negative result is only possible when the header contains a minus sign |
| `ContentLength.ParseIntOfSurrounded` | nsc_web_co2_streamlit.py:89-92 | a value with whitespace around it reads as its sign-and-digits core, and is accepted exactly when that core is a digit run with at most one leading sign |
| `ContentLength.ParseSigned` | nsc_web_co2_streamlit.py:89-92 | a negative result comes only from a leading minus sign |
| `ContentLength.ParseSignedMeetsSpec` | nsc_web_co2_streamlit.py:89-92 | accepted exactly when the text is a digit run, optionally after one '+' or '-'; the value is the run's number, negated after '-' (so "+5" is 5, "-007" is -7) |
| `ContentLength.ParseDigitRunMeetsSpec` | nsc_web_co2_streamlit.py:89-92 | the digit reader accepts exactly the digit runs (digits, single underscores only between digits) and yields the number each denotes |
| `ContentLength.ParseIgnoresSurroundingSpace` | nsc_web_co2_streamlit.py:89-92 | whitespace around the value does not change what int() returns |
| `ContentLength.ParseRenderRoundTrip` | nsc_web_co2_streamlit.py:89-92 | int() reads back the decimal text of every integer, sign included |
| `ContentLength.ParseUnderscoreExample` | nsc_web_co2_streamlit.py:89-92 | "1_000" reads as 1000 |
| `ContentLength.ParseRejectsTrailingJunk` | nsc_web_co2_streamlit.py:88-92 | a value ending in anything but a digit or whitespace (such as "12abc") is rejected, so the header counts as 0 |
| `ContentLength.ParseRejectsBlank` | nsc_web_co2_streamlit.py:88-92 | an empty or all-whitespace value is rejected, so the header counts as 0 |
| `Accounting.HeaderLength` | nsc_web_co2_streamlit.py:84-92 | a non-zero header length is exactly what int() returned for a present header; a header int() accepts gives its value |
| `Accounting.BodyLength` | nsc_web_co2_streamlit.py:95-100 | a successful read gives the body's length, a failed one 0 |
| `Accounting.VisitMeter.constructor` | nsc_web_co2_streamlit.py:74 | the running total starts at 0 |
| `Accounting.Contribution` | nsc_web_co2_streamlit.py:78-102 | the bytes one response adds; its cases are stated by `NonNetworkAddsNothing`, `HeaderDecides` and `BodyFallback`, which together cover every response |
| `Accounting.VisitMeter.HandleResponse` | nsc_web_co2_streamlit.py:76-105 | the total grows by exactly the response's contribution; no response makes the handler fail |
| `Accounting.MeasureVisit` | nsc_web_co2_streamlit.py:73-114 | the visit total is the sum of the responses' contributions in arrival order |
| `Accounting.NonNetworkAddsNothing` | nsc_web_co2_streamlit.py:81-82 | a data: or about: response adds 0 whatever its header and body |
| `Accounting.HeaderDecides` | nsc_web_co2_streamlit.py:86-95 | a header that parses to non-zero n adds n, whatever the body is |
| `Accounting.BodyFallback` | nsc_web_co2_streamlit.py:94-100 | a missing, unparseable or zero header adds the body length, and 0 when the body read fails |
| `Accounting.VisitTotalAppend` | nsc_web_co2_streamlit.py:102 | the total of two consecutive stretches of responses is the sum of their totals |
| `Accounting.VisitTotalIsolation` | nsc_web_co2_streamlit.py:102-105 | changing one response changes the total by exactly the change in that response's contribution |
| `Accounting.FailedResponseIsSkipped` | nsc_web_co2_streamlit.py:96-105 | a response that contributes 0 leaves the total as if it had never arrived |
| `Accounting.VisitTotalNonNegative` | nsc_web_co2_streamlit.py:88-102 | when no header contains a minus sign the visit total is non-negative |
| `Accounting.NegativeHeaderReachesTotal` | nsc_web_co2_streamlit.py:88-102 | a single response with header "-5" makes the visit total −5 |
| `Results.VisitRecord` | nsc_web_co2_streamlit.py:146-159 | a visit's mb/gb are bytes_to_mb_gb(bytes) and its energy/CO2 are co2_for_bytes(bytes) with the default constants, which makes the record consistent |
| `Results.ConsistentVisitIsVisitRecord` | nsc_web_co2_streamlit.py:146-159 | any record whose units agree with its byte count is the record built from that count |
| `Results.BuildResults` | nsc_web_co2_streamlit.py:133-160 | the record carries the URL, the model constants and notes, and a consistent visit record per byte total |
| `Results.RunMeasurements` | nsc_web_co2_streamlit.py:117-162 | the record carries the URL, the constants and the notes, and first_visit and return_visit are the records of the two visits' response totals, in that order |
| `Results.VisitGrade` | nsc_web_co2_streamlit.py:210-211 | the grade shown for a consistent visit record is the grade of the CO2 its byte count gives under the default constants, unrounded |
| `Results.MoreBytesNeverBetterGrade` | nsc_web_co2_streamlit.py:210-211 | a visit that transferred more bytes never shows a better grade |
| `Results.GradeBandsInBytes` | nsc_web_co2_streamlit.py:210-211 | with the default constants the grade is A up to 1499555 bytes, B up to 2999111, C up to 4498666, D up to 5998222, F above |

## Left out

- The user interface (page layout, inputs, metrics, tables, JSON view, footer): presentation with no decisions in it.
- Browser launch, context and page lifecycle, navigation with its wait condition and 60 s timeout, and the 2000 ms grace wait: foreign calls and real time. Each visit's responses are an input sequence; a navigation failure, which the code lets propagate, is not modelled.
- Cache carry-over between the two visits: it happens inside the browser; the two response sequences are independent inputs.
- Exceptions raised while reading a response's request URL or header map: the model's responses always expose both; such an exception would make the response add 0, as a failed body read does.
- ContentLength.ParseInt: accepts only ASCII digits and ASCII whitespace; Python's int() also accepts other Unicode decimal digits and whitespace, and refuses values of more than 4300 digits in recent interpreters (a version-dependent interpreter limit).
- Floating-point rounding of the emissions arithmetic and the fixed-decimal display formatting: the model computes over exact reals.
- Emissions.BytesToMbGb: does not model the OverflowError that Python's int/int true division (nsc_web_co2_streamlit.py:15-16) raises once a byte total exceeds the largest float times 1024^2 (about 1.9e314); such a total is reachable through a content-length header of 315 or more digits, and the code then reports the error in the page (nsc_web_co2_streamlit.py:194-196) instead of returning a result record. The model, computing over exact reals, returns a record for every total.
