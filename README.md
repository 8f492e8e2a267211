# DHT22 serial reader — a Dafny model of its sequential core

Two Python scripts read lines from an Arduino that relays a DHT22
temperature/humidity sensor. Each line looks like
`Humidity: 45.0 %<TAB>Temperature: 23.5 *C`. A background thread reads the
lines one at a time. It reduces each line to its two payload strings with
plain string operations and converts them with `float()`. It then appends a
time stamp, the temperature and the humidity to three parallel module-level
lists, and trims the lists back to the 100 most recent samples.
`DHT22_Python2.py` stamps samples with `datetime.now()`. It also runs a second
thread that writes the lists to `Environment.csv` at an interval chosen in a
combobox. `DHT22_Python.py` stamps samples with the seconds elapsed since its
reader started.

The project models this core:

- `pystr.dfy` (module `PyStr`): the Python `str` operations the reader uses.
  These are `strip()`, `in`, `split(sep)` and `replace(old, new)`, with
  `sep.join` as their reference.
- `frame.dfy` (module `Frame`): extraction of the two payloads from a line
  (`Extract`), and the outcome of one line once `float()` has run (`Decode`).
- `history.dfy` (module `History`): the class `SensorHistory`. Its three
  sequence fields are the three lists. `Push` appends a sample and trims,
  `Ingest` is one pass of the reader loop, and `Run` is the reader loop over
  the lines that arrive.
- `dht22_python.dfy` (module `Dht22Python`): the elapsed-seconds reader.
- `dht22_python2.dfy` (module `Dht22Python2`): `datetime` stamps and their
  `strftime('%Y-%m-%d %H:%M:%S')` rendering. It also holds the save-interval
  selector and the CSV rows of one export.

Two behaviours of the code shape the model:

- A marked line whose fields do not split as the indexing expects raises
  `IndexError`. The indexing `parts[1]` and `split(": ")[1]` sits outside the
  `try` (DHT22_Python2.py lines 67-69, DHT22_Python.py lines 44-46). The
  exception leaves `read_serial_data`, and the reader thread ends. `Extract`
  returns `IndexError` for these lines, and `Run` stops at the first one and
  reports its index.
- The capacity is a fixed 100. The lists are plain module-level lists with no
  lock. DHT22_Python.py updates its labels directly from the reader thread.
  DHT22_Python2.py posts the update to the Tk event loop with
  `root.after(0, ...)`. The model has the constant `MaxSamples` = 100 and
  sequential operations.

The extraction round trip holds for payloads free of tab, `": "`, `" %"` and
`" *C"` that also do not end in `':'`. A final colon forms `": "` with the
space of the unit, so `Humidity: 4: %` extracts to `4`, not `4:`.

## Model

| member | source | states |
|---|---|---|
| `PyStr.Strip` | DHT22_Python2.py:64 | The result is empty exactly when the line is all whitespace. Otherwise it starts and ends with non-whitespace. A line with no whitespace at either end is returned unchanged. |
| `PyStr.StripSlice` | DHT22_Python.py:41 | `strip()` removes only whitespace: the result is the slice after the leading whitespace, and everything after it is whitespace. |
| `PyStr.IndexOf` | DHT22_Python2.py:66 | Returns the first index where the pattern occurs, with no occurrence before it. Returns `None` exactly when the pattern is not in the string, which is the `in` test. |
| `PyStr.Split` | DHT22_Python2.py:67 | Gives at least one piece, and exactly one when the separator is absent. The first piece is the text before the first occurrence. No piece contains the separator, and joining the pieces with it gives the input back. |
| `PyStr.Replace` | DHT22_Python2.py:68-69 | Equals the split on the target joined with the replacement. Leaves a string without the target unchanged. |
| `Frame.Extract` | DHT22_Python2.py:64-69 | Blank exactly when the line is all whitespace. Unmarked exactly when the stripped line lacks `Humidity:` or `Temperature:`. `IndexError` exactly when a marked line has no tab, or one of its first two tab fields has no `": "`. |
| `Frame.Decode` | DHT22_Python2.py:64-90 | A line is skipped exactly when it is blank or lacks a marker. It crashes exactly when extraction raises `IndexError`. A parsed reading holds the converted payloads, humidity and temperature in their places. It is a numeric failure, caught by the `except ValueError`, exactly when extraction succeeds but one payload does not convert. |
| `Frame.ExtractFrame` | DHT22_Python2.py:67-69 | Round trip: the frame `Humidity: h %<TAB>Temperature: t *C` extracts to exactly `h` and `t`, for clean payloads. |
| `Frame.DecodeFrame` | DHT22_Python2.py:71-73 | A clean frame yields a reading exactly when both payloads convert, with the converted values in their places. Otherwise it is a numeric failure and never a crash. |
| `Frame.MarkedWithoutTab` | DHT22_Python.py:44-46 | A non-blank line that has both markers but no tab raises `IndexError` and is not passed over. |
| `Frame.SampleFrame` | DHT22_Python.py:43-46 | `Humidity: 45.0 %<TAB>Temperature: 23.5 *C` yields the payloads `45.0` and `23.5`. |
| `Frame.SampleGarbage` | DHT22_Python.py:43 | `garbage` is passed over as unmarked. |
| `Frame.SpacedFrame` | DHT22_Python2.py:66-69 | For any payloads without a tab, the frame with a space in place of its tab raises `IndexError`. |
| `Frame.SampleNoTab` | DHT22_Python2.py:66-69 | The sample frame with a space in place of its tab raises `IndexError`. |
| `History.Bounded` | DHT22_Python2.py:77-88 | After one append and trim, the new element is last. Length at most 100 before means at most 100 after. A list of exactly 100 loses only its first element. A shorter list loses nothing. |
| `History.Newest` | DHT22_Python.py:63-66 | Gives the last `min(n, 100)` elements of a sequence of length `n`, in their original order. |
| `History.BoundedNewest` | DHT22_Python2.py:85-88 | Appending and then trimming, repeated, keeps exactly the 100 most recent elements ever appended. |
| `History.ZipBounded` | DHT22_Python.py:54-66 | Trimming the three lists in step trims the readings they hold together. No reading loses one of its fields. |
| `History.AcceptedOrigin` | DHT22_Python2.py:72-79 | Every stored reading comes whole from one line. Its stamp is that line's clock reading, and both of its values are that line's converted payloads. |
| `History.SensorHistory.constructor` | DHT22_Python2.py:54-56 | The three lists start empty, and the invariant holds: equal lengths, at most 100. |
| `History.SensorHistory.Push` | DHT22_Python2.py:77-88 | Each list becomes `Bounded` of its old value and the new entry, and so do the readings they hold together. The invariant is kept. |
| `History.SensorHistory.Ingest` | DHT22_Python2.py:64-90 | The outcome is the line's decoding. Only a line that extracts and converts changes the lists, and it appends its stamp, temperature and humidity, then trims. Any other line leaves all three lists unchanged. |
| `History.SensorHistory.Step` | DHT22_Python.py:41-68 | After one more line, unless it raises `IndexError`, the readings are the newest 100 of the earlier readings followed by all the lines accepted so far. |
| `History.SensorHistory.Run` | DHT22_Python2.py:62-90 | The loop stops exactly at the first line that raises `IndexError`. Afterwards the lists hold the 100 most recent of the earlier readings followed by the readings of all accepted lines, in arrival order. |
| `Dht22Python.ReadSerialData` | DHT22_Python.py:38-68 | This is `Run` with stamps `time.time() - start_time`. It stops at the first `IndexError`, and the lists end up as the newest 100 readings. |
| `Dht22Python.ElapsedStamps` | DHT22_Python.py:49-56 | Every stored reading comes from one parsed line. Its stamp is that line's clock reading less the start time (`time.time() - start_time`, line 53), and its temperature and humidity are that line's converted payloads. |
| `Dht22Python2.Pad2` | DHT22_Python2.py:189 | Gives two digits that read back as the number. |
| `Dht22Python2.Pad4` | DHT22_Python2.py:189 | Gives four digits that read back as the number. |
| `Dht22Python2.FormatStamp` | DHT22_Python2.py:189 | Renders a `datetime` as a 19-character `YYYY-MM-DD HH:MM:SS`. |
| `Dht22Python2.ParseFormat` | DHT22_Python2.py:189 | Reading the rendered stamp back gives every field of the `datetime` except the dropped microseconds. |
| `Dht22Python2.SaveDelay` | DHT22_Python2.py:173-181 | `10 minutes` gives 600 s, `1 hour` 3600 s and `1 day` 86400 s. Any other selection gives 600 s. |
| `Dht22Python2.ExportRows` | DHT22_Python2.py:185-189 | The first row is the header `Timestamp`, `Temperature (°C)`, `Humidity (%)`. It is followed by exactly one row per retained index, in index order: the formatted stamp, the temperature and the humidity at that index. The history is only read. |

## Left out

- Serial I/O is not modelled: opening the port, `readline()` and the UTF-8 `decode()`. Each line is an input string, already decoded.
- Reading the clock is not modelled. `datetime.now()` and `time.time()` become the input sequence `clock`, one reading per line, used only for the lines that are stored.
- `float()` is the parameter `toFloat`, with `None` standing for `ValueError`. Floating-point parsing is outside the model. So is the arithmetic of `time.time() - start_time`, which the model does on reals.
- The daemon threads, `while True` and `time.sleep` are left out because concurrency cannot be modelled here. The reader loop runs over a finite sequence of lines, and an export is a separate sequential call. The unsynchronised sharing of the lists between threads is not modelled.
- The GUI is left out: the Tkinter labels and comboboxes, `root.after`, `update_labels` and the direct label updates in DHT22_Python.py lines 59-60.
- `update_plot` and `animate` are left out: matplotlib drawing, axis locators and formatters, and the `mplcursors` tooltips. They only present the lists.
- Writing `Environment.csv` with `open` and `csv.writer` is left out. `ExportRows` gives the rows handed to `writerow`. Numeric cells stay values, because their `str()` rendering is floating point. The `save_data` loop around one export is not modelled, only one pass of it.
- `Dht22Python2.FormatStamp`: always pads the year to four digits. Python's `%Y` for years below 1000 depends on the platform's C library.
- DHT22_Serial.py is not part of this model. It is a read-and-print echo loop.
