# ADC acquisition path of the RP2040 PID controller firmware

This project models the acquisition path of the firmware, as a verified Dafny model. The path is `src/modular/adc.rs`. The task `read_adc_channels` owns a moving-average buffer, `HeaplessMutexRingBuffer`. That buffer is a `heapless::HistoryBuf<u16, 16>` behind a mutex. The task seeds the buffer with the sample 4094. After that, each iteration of its endless loop does the following:

- It reads ADC channel 0, the reference temperature resistor.
- On success it adds the sample to the buffer and takes the buffer's average with `get_all`.
- It publishes that average as a `u16` on the watch `ADC0_CHANNEL`.
- It reads the RP2040 die-temperature channel.
- On success it publishes the raw sample, not the converted temperature, on the watch `ADCTEMP_CHANNEL`.
- A failed read publishes nothing for that channel.

The files:

- `samples.dfy` (module `Samples`) defines `u16` samples, the 12-bit range of the converter and the mathematical sum. It also defines the wrapping `u16` fold that `iter().copied().sum::<u16>()` computes. It proves when that fold cannot overflow and that the truncated mean lies between the smallest and the largest sample.
- `ring_buffer.dfy` (module `RingBuffer`) holds the class `HeaplessMutexRingBuffer`. The class has an array of 16 slots, a write cursor and a count of valid entries, updated in place the way `HistoryBuf` updates them. The ghost function `Contents()` gives the valid entries in write order. `Add` is proved against the value-level `Write`. `GetAll` is proved against `WindowAverage`. The module also proves that any number of writes leaves exactly the last 16 values.
- `broadcast.dfy` (module `Broadcast`) models the sender side of an embassy `Watch`. It has a latest-value slot and a version counter, and every `Send` overwrites the slot and advances the version.
- `acquisition.dfy` (module `Acquisition`) models the loop in two forms:
  - As values: `Channel0`, `TempChannel`, `Step` and `Run` over a sequence of read outcomes, starting from the seeded state `Start`.
  - Imperatively: `Iteration` and `ReadAdcChannels` over the class and the two watches.

  The methods are proved to follow the value-level functions. Lemmas state what a run publishes.

Remarks on the code:

- `get_all` divides by `len()`, and a Rust division by zero panics. `GetAll` therefore requires a non-empty buffer. The loop always calls `add` before `get_all` (adc.rs:134-135), so that requirement already holds on the first iteration without the seed. The seed at adc.rs:117 also guarantees it. `Run` shows that the window never shrinks, so once seeded it is never empty (`NeverEmpty`).
- The seed is averaged in with the real readings until it is evicted by the sixteenth successful read. In the worked example, readings 100, 200 and 300 publish 1173 and not 200.
- `sum::<u16>()` wraps in a release build and panics in a debug build. The model computes the wrapping fold. For at most 16 samples of 12 bits, no partial sum exceeds 65535, so both builds agree (`TwelveBitNoOverflow`, `GetAll`). The average is then at most the largest sample, so `avg_temp_res as u16` at adc.rs:138 loses nothing. Even with wrapping, the average never exceeds 65535.
- `HistoryBuf` is a library, so its source is not part of this model. It is modelled by its documented behaviour:
  - A write goes to the slot under the cursor, and the cursor advances with wrap-around.
  - `len()` is the cursor until the buffer first fills, and 16 from then on.
  - `iter()` walks the valid slots in storage order.

## Model

| member | source | states |
|---|---|---|
| Samples.WrappingSum | src/modular/adc.rs:50 | the `u16` fold of the samples equals their mathematical sum modulo 2^16 |
| Samples.TwelveBitNoOverflow | src/modular/adc.rs:50 | for at most 16 samples of at most 4095, no partial sum of the fold exceeds 65535, and the wrapping sum equals the true sum |
| Samples.SumRotation | src/modular/adc.rs:50 | the sum in slot order equals the sum in write order of a full ring |
| Samples.MeanBetween | src/modular/adc.rs:50 | the truncated mean lies between the smallest and the largest sample |
| Samples.WindowAverage | src/modular/adc.rs:50 | the average fits in `u16`, and for 12-bit windows of at most 16 it equals floor(sum / count) and lies between min and max |
| RingBuffer.Write | src/modular/adc.rs:44 | one write lengthens the window by one until it holds 16 entries, then keeps it at 16 |
| RingBuffer.WriteIsLastWindow | src/modular/adc.rs:44 | one write leaves the last 16 of the old window followed by the new sample |
| RingBuffer.Writes | src/modular/adc.rs:42-45 | a sequence of writes never leaves more than 16 entries |
| RingBuffer.WritesKeepLastWindow | src/modular/adc.rs:42-45 | after any sequence of writes the buffer holds exactly the last 16 values written, in write order |
| RingBuffer.SeventeenWrites | src/modular/adc.rs:42-45 | after 17 writes to an empty buffer the contents are the last 16 in write order, and the first value has been evicted |
| RingBuffer.HeaplessMutexRingBuffer.constructor | src/modular/adc.rs:36-40 | a new buffer is empty, with the cursor at slot 0 |
| RingBuffer.HeaplessMutexRingBuffer.Add | src/modular/adc.rs:42-45 | a buffer with fewer than 16 entries gets one more entry with the value appended; a full one keeps 16 and evicts the oldest; the cursor advances modulo 16 |
| RingBuffer.HeaplessMutexRingBuffer.GetAll | src/modular/adc.rs:47-52 | on a non-empty buffer, returns the wrapping sum over the entry count; with 12-bit entries the fold never overflows, and the result is floor(sum / len), between min and max; it changes nothing |
| RingBuffer.HeaplessMutexRingBuffer.SlotsSum | src/modular/adc.rs:50 | the valid slots in storage order sum to the same total as the window in write order |
| RingBuffer.HeaplessMutexRingBuffer.SlotsTwelveBit | src/modular/adc.rs:50 | a 12-bit window never overflows the fold taken in slot order |
| Broadcast.Watch.constructor | src/modular/adc.rs:74 | a watch starts with no value and version 0 |
| Broadcast.Watch.Send | src/modular/adc.rs:138 | a send overwrites the slot with the value and advances the version by one |
| Acquisition.Channel0 | src/modular/adc.rs:130-141 | a successful read appends the sample and publishes exactly the new window average with the ADC0 version advanced by one; a failed read changes nothing; the temperature watch is never touched |
| Acquisition.Channel0PublishesMean | src/modular/adc.rs:134-138 | with 12-bit samples the published value is the true truncated mean of the new window, between its smallest and largest entry |
| Acquisition.TempChannel | src/modular/adc.rs:183-191 | a successful read publishes the raw sample and advances the ADCTEMP version; a failed read leaves it unchanged; the buffer and ADC0 are untouched |
| Acquisition.Step | src/modular/adc.rs:125-191 | one iteration never shrinks the window and never grows it beyond 16 |
| Acquisition.Run | src/modular/adc.rs:118-194 | any number of iterations never shrinks the window and keeps it at most 16 |
| Acquisition.NeverEmpty | src/modular/adc.rs:116-135 | after seeding, the window holds between 1 and 16 entries forever, so `get_all` never divides by zero |
| Acquisition.RunWindow | src/modular/adc.rs:116-134 | after any run, the window is the last 16 of the seed followed by every successful channel-0 reading, in order |
| Acquisition.RunVersions | src/modular/adc.rs:130-191 | each watch's version advances exactly once per successful read of its channel |
| Acquisition.RunLatestTemp | src/modular/adc.rs:183-191 | ADCTEMP holds the raw value of the last successful temperature read, and is unchanged if there was none |
| Acquisition.RunLatestAdc0 | src/modular/adc.rs:116-138 | with 12-bit readings, after any run ADC0 holds the exact truncated mean of the current window once channel 0 has been read, and is untouched before that |
| Acquisition.ExampleAverage | src/modular/adc.rs:116-138 | seed 4094 followed by readings 100, 200 and 300 publishes 4694 / 4 = 1173, with the version advanced by three |
| Acquisition.Iteration | src/modular/adc.rs:118-191 | one pass of the loop body changes the buffer and both watches exactly as `Step` says |
| Acquisition.ReadAdcChannels | src/modular/adc.rs:107-194 | creating and seeding the buffer, then looping over the given read outcomes, leaves both watches as `Run` from the seeded state says |

## Left out

- The async `Mutex` around the converter and around the buffer: once the model is sequential they have no functional content.
- The `Timer` sleep between iterations: timing and scheduling are not modelled.
- The endless loop: `ReadAdcChannels` runs one iteration per element of a finite sequence of read outcomes.
- The converter itself: each read outcome is an input, either a `u16` sample or an error. The error's kind is not modelled.
- The floating-point die-temperature conversion at adc.rs:185-186: it only feeds a log line.
- All `defmt` logging.
- The receiver side of the embassy `Watch`: receiver cursors, the blocking `get`, `dyn_receiver` and the consumer limits `ADC0_CONSUMERS` and `ADCTEMP_CONSUMERS` (adc.rs:73-78, adc.rs:97-102). The library is not part of this model, and its point is synchronisation across tasks.
- The width of the watch version counter: `Watch.version` is an unbounded `nat`.
- `HeaplessMutexRingBuffer.len`, `is_empty` and `clear`, and the ADC1 and ADC2 channels: they are commented out in the code.
- The consumer tasks `channel_adc_0.rs` and `channel_temp.rs`, the display in `oled.rs`, the PWM demo in `pwm.rs` and the boot code in `main.rs`. They only receive, convert with floating point, draw or set up peripherals, so none of them is part of this model.
