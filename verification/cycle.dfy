/** One pass of the main loop: LED on, read, upload, then the wait phase that
    toggles the LED once a second for the configured number of minutes. Sensor
    values, the transport outcome and the log prefix are inputs; the sleeps are
    not modelled. */
module Cycle {
  import opened Config
  import opened Humidity
  import opened Upload

  /** Number of values in Python's `range(start, stop)`. */
  function RangeLength(start: int, stop: int): (n: nat)
    ensures n == 0 <==> stop <= start
    ensures start + n == stop || n == 0
  {
    if stop > start then stop - start else 0
  }

  /** Toggles in one wait phase: `range(0, INTERVAL*60)`. */
  function ToggleCount(interval: int): (n: nat)
    ensures n % 2 == 0
    ensures n > 0 <==> interval > 0
    ensures n > 0 ==> n == interval * 60
  {
    var half := if interval > 0 then interval * 30 else 0;
    assert RangeLength(0, interval * 60) == half + half;
    RangeLength(0, interval * 60)
  }

  /** The LED after `n` toggles starting from `led`. */
  function Toggled(led: bool, n: nat): bool {
    if n == 0 then led else !Toggled(led, n - 1)
  }

  /** Toggling flips the LED exactly when the count is odd. */
  lemma {:induction false} ToggledParity(led: bool, n: nat)
    ensures Toggled(led, n) == (if n % 2 == 0 then led else !led)
  {
    if n > 0 {
      ToggledParity(led, n - 1);
    }
  }

  /** The wait loop: each step writes the inverse of the LED's current level. */
  method WaitPhase(interval: int, led: bool) returns (final: bool, toggles: nat)
    ensures toggles == ToggleCount(interval)
    ensures final == led
  {
    var n := ToggleCount(interval);
    final := led;
    toggles := 0;
    while toggles < n
      invariant toggles <= n
      invariant final == Toggled(led, toggles)
    {
      final := !final;
      toggles := toggles + 1;
    }
    ToggledParity(led, n);
  }

  /** What one pass produces: the upload report, the LED level at its end and the
      number of toggles. */
  datatype CycleReport = CycleReport(upload: SendReport, led: bool, toggles: nat)

  /** One pass of the loop with settings `s`. The LED level before the pass does
      not matter: the pass starts by driving it high. */
  method RunCycle(s: Settings, temperature: real, pressure: real, hi: Byte, lo: Byte,
                  prefix: string, transport: Transport) returns (report: CycleReport)
    ensures report.upload.request.url == s.url
    ensures report.upload.request.form.Keys == PayloadKeys
    ensures report.upload.request.form["api_key"] == Text(s.apiKey)
    ensures report.upload.request.form["field1"] == Number(temperature)
    ensures report.upload.request.form["field2"] == Number(pressure)
    ensures report.upload.request.form["field3"] == Number(CurrentHumidity(hi, lo))
    ensures report.upload.console == [] <==> transport.Responded?
    ensures report.led
    ensures report.toggles == ToggleCount(s.interval)
  {
    var led := true;
    var humidity := CurrentHumidity(hi, lo);
    var upload := SendData(s.url, s.apiKey, "field1", "field2", "field3",
                           temperature, pressure, humidity, prefix, transport);
    var toggles;
    led, toggles := WaitPhase(s.interval, led);
    report := CycleReport(upload, led, toggles);
  }
}
