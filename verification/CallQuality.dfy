/** Call-quality metrics: the packet-loss ratio stored as a count and read back as a ratio,
    and the resolution stored as two numbers and read back as text. */
module CallQuality {
  import opened Prelude

  const MAX_INT := 0x7fff_ffff_ffff_ffff

  datatype Request = Request(packetsSent: int, packetsReceived: int, packetsLost: int, packetLoss: real,
                             resolutionWidth: int, resolutionHeight: int, resolution: string)

  datatype Metric = Metric(packetsSent: int, packetsReceived: int, packetsLost: int, width: int, height: int)

  datatype MetricDTO = MetricDTO(packetLoss: real, resolution: string)

  /** Rounds to the nearest integer, halves away from zero. */
  function Round(x: real): int {
    if x >= 0.0 then (x + 0.5).Floor else -((-x + 0.5).Floor)
  }

  /** `n` times x, as repeated addition. */
  function Times(x: real, n: nat): real {
    if n == 0 then 0.0 else Times(x, n - 1) + x
  }

  lemma {:induction false} TimesIsProduct(x: real, n: nat)
    ensures Times(x, n) == x * n as real
  {
    if n > 0 {
      TimesIsProduct(x, n - 1);
      assert x * (n - 1) as real + x == x * n as real;
    }
  }

  /** The lost count to store: the uploaded one, or the ratio of the packets sent, or of the
      packets received when none were sent. */
  function LostPackets(req: Request): int {
    if req.packetsLost != 0 || req.packetLoss <= 0.0 then req.packetsLost
    else LostOf(req.packetLoss, if req.packetsSent == 0 then req.packetsReceived else req.packetsSent)
  }

  function LostOf(ratio: real, packets: int): int {
    if packets > 0 then Round(Times(ratio, packets)) else 0
  }

  /** The ratio shown for a stored metric: the share of the packets sent that makes up the
      lost ones; without packets sent, the lost count itself, or 0 when it is negative. */
  predicate Shows(ratio: real, lost: int, sent: int) {
    if sent > 0 then Times(ratio, sent) == lost as real
    else ratio == if lost > 0 then lost as real else 0.0
  }

  function Resolution(m: Metric): string {
    if m.width > 0 && m.height > 0 then Itoa(m.width) + "x" + Itoa(m.height) else ""
  }

  /** Half a packet as a share of n packets: 1/(2n). */
  function HalfPacket(n: int): real
    requires n > 0
  {
    1.0 / (2.0 * n as real)
  }

  method RecordQualityMetric(req: Request) returns (metric: Metric)
    ensures metric.packetsSent == req.packetsSent && metric.packetsReceived == req.packetsReceived
    ensures metric.packetsLost == LostPackets(req)
    ensures (metric.width, metric.height) == StoredResolution(req)
    ensures req.packetsLost != 0 || req.packetLoss <= 0.0 ==> metric.packetsLost == req.packetsLost
    ensures req.resolution == "" ==>
              metric.width == (if req.resolutionWidth > 0 then req.resolutionWidth else 0) &&
              metric.height == (if req.resolutionHeight > 0 then req.resolutionHeight else 0)
  {
    var packetsLost := req.packetsLost;
    if packetsLost == 0 && req.packetLoss > 0.0 {
      var base := req.packetsSent;
      if base == 0 {
        base := req.packetsReceived;
      }
      packetsLost := CountLost(req.packetLoss, base);
    }
    var width, height := RecordResolution(req);
    metric := Metric(req.packetsSent, req.packetsReceived, packetsLost, width, height);
  }

  method CountLost(ratio: real, packets: int) returns (lost: int)
    ensures lost == LostOf(ratio, packets)
  {
    lost := 0;
    if packets > 0 {
      TimesIsProduct(ratio, packets);
      lost := Round(ratio * packets as real);
    }
  }

  /** A scanned text wins over the explicit numbers, and either may be missing. */
  function StoredResolution(req: Request): (int, int) {
    var scanned := ScanResolution(req.resolution);
    if scanned.0 > 0 && scanned.1 > 0 then scanned
    else (if req.resolutionWidth > 0 then req.resolutionWidth else 0,
          if req.resolutionHeight > 0 then req.resolutionHeight else 0)
  }

  method RecordResolution(req: Request) returns (width: int, height: int)
    ensures (width, height) == StoredResolution(req)
  {
    width, height := 0, 0;
    if req.resolutionWidth > 0 {
      width := req.resolutionWidth;
    }
    if req.resolutionHeight > 0 {
      height := req.resolutionHeight;
    }
    if req.resolution != "" {
      var scanned := ScanResolution(req.resolution);
      if scanned.0 > 0 && scanned.1 > 0 {
        width, height := scanned.0, scanned.1;
      }
    }
  }

  method FromCallQualityMetric(m: Metric) returns (dto: MetricDTO)
    ensures Shows(dto.packetLoss, m.packetsLost, m.packetsSent)
    ensures dto.resolution == Resolution(m)
    ensures 0 < m.width <= MAX_INT && 0 < m.height <= MAX_INT ==> ScanResolution(dto.resolution) == (m.width, m.height)
  {
    dto := MetricDTO(0.0, "");
    if m.packetsSent > 0 {
      dto := dto.(packetLoss := m.packetsLost as real / m.packetsSent as real);
      QuotientTimes(m.packetsLost, m.packetsSent);
    } else if m.packetsLost > 0 {
      dto := dto.(packetLoss := m.packetsLost as real);
    }
    if m.width > 0 && m.height > 0 {
      dto := dto.(resolution := Itoa(m.width) + "x" + Itoa(m.height));
      if m.width <= MAX_INT && m.height <= MAX_INT {
        ResolutionRoundTrip(m.width, m.height);
      }
    }
  }

  /** Upload and read back: a positive ratio without an explicit count comes back within
      half a packet of what was uploaded, a ratio up to 1 stores a count between 0 and the
      packets sent, it comes back unchanged
      exactly in the two cases named, and a resolution text read back and uploaded again is understood. */
  method UploadAndReadBack(req: Request) returns (metric: Metric, dto: MetricDTO)
    ensures req.packetsLost == 0 && req.packetLoss > 0.0 && req.packetsSent > 0 ==>
              -HalfPacket(req.packetsSent) <= dto.packetLoss - req.packetLoss <= HalfPacket(req.packetsSent)
    ensures req.packetsLost == 0 && 0.0 < req.packetLoss <= 1.0 && req.packetsSent > 0 ==>
              0 <= metric.packetsLost <= req.packetsSent
    ensures req.packetsLost == 0 && req.packetLoss > 0.0 ==>
              (dto.packetLoss == req.packetLoss <==>
                || (req.packetsSent > 0 && IsWhole(Times(req.packetLoss, req.packetsSent)))
                || (req.packetsSent == 0 && req.packetsReceived == 1 && IsWhole(req.packetLoss)))
    ensures 0 < metric.width <= MAX_INT && 0 < metric.height <= MAX_INT ==>
              ScanResolution(dto.resolution) == (metric.width, metric.height)
  {
    metric := RecordQualityMetric(req);
    dto := FromCallQualityMetric(metric);
    if req.packetsLost == 0 && req.packetLoss > 0.0 {
      RatioComesBackExactly(req, dto.packetLoss);
      if req.packetsSent > 0 {
        RatioSurvives(req.packetLoss, req.packetsSent, dto.packetLoss);
      }
    }
  }

  // ---------------------------------------------------------------- the ratio

  lemma QuotientTimes(a: int, n: int)
    requires n > 0
    ensures Times(a as real / n as real, n) == a as real
  {
    TimesIsProduct(a as real / n as real, n);
  }

  lemma HalfPacketTimes(n: int)
    requires n > 0
    ensures Times(HalfPacket(n), n) == 0.5
  {
    var half := HalfPacket(n);
    TimesIsProduct(half, n);
    assert half * (2.0 * n as real) == 1.0;
  }

  lemma {:induction false} TimesMinus(a: real, b: real, n: nat)
    ensures Times(a - b, n) == Times(a, n) - Times(b, n)
  {
    if n > 0 {
      TimesMinus(a, b, n - 1);
    }
  }

  lemma {:induction false} TimesGrows(a: real, b: real, n: nat)
    requires a <= b
    ensures Times(a, n) <= Times(b, n) && (a < b && n > 0 ==> Times(a, n) < Times(b, n))
  {
    if n > 0 {
      TimesGrows(a, b, n - 1);
    }
  }

  lemma {:induction false} TimesOne(n: nat)
    ensures Times(1.0, n) == n as real && Times(0.0, n) == 0.0
  {
    if n > 0 {
      TimesOne(n - 1);
    }
  }

  /** Two ratios are within half a packet of one another exactly if what they make up of n
      packets is within one half. */
  lemma HalfPacketApart(q: real, p: real, n: int)
    requires n > 0
    ensures -HalfPacket(n) <= q - p <= HalfPacket(n) <==> -0.5 <= Times(q, n) - Times(p, n) <= 0.5
  {
    HalfPacketTimes(n);
    TimesOne(n);
    Interval(q - p, HalfPacket(n), n);
    TimesMinus(q, p, n);
  }

  lemma Interval(d: real, h: real, n: int)
    requires n > 0 && Times(0.0, n) == 0.0
    ensures -h <= d <= h <==> -Times(h, n) <= Times(d, n) <= Times(h, n)
  {
    TimesMinus(0.0, h, n);
    if d <= h {
      TimesGrows(d, h, n);
    } else {
      TimesGrows(h, d, n);
    }
    if -h <= d {
      TimesGrows(-h, d, n);
    } else {
      TimesGrows(d, -h, n);
    }
  }

  /** Rounding a positive number: halves go up. */
  lemma RoundNear(x: real)
    requires x > 0.0
    ensures Round(x) >= 0 && Round(x) as real - 0.5 <= x < Round(x) as real + 0.5
  {
  }

  /** With packets sent, the ratio read back is within half a packet of the uploaded one. */
  lemma RatioSurvives(p: real, n: int, shown: real)
    requires p > 0.0 && n > 0 && Times(shown, n) == LostOf(p, n) as real
    ensures LostOf(p, n) >= 0 && (p <= 1.0 ==> LostOf(p, n) <= n)
    ensures -HalfPacket(n) <= shown - p <= HalfPacket(n)
  {
    TimesOne(n);
    TimesGrows(0.0, p, n);
    RoundNear(Times(p, n));
    if p <= 1.0 {
      TimesGrows(p, 1.0, n);
    }
    HalfPacketApart(shown, p, n);
  }

  // ---------------------------------------------------------------- which ratios survive

  ghost predicate IsWhole(x: real) {
    exists k: int :: IsCount(x, k)
  }

  predicate IsCount(x: real, k: int) {
    x == k as real
  }

  lemma RoundsToItself(x: real)
    requires x > 0.0
    ensures Round(x) as real == x <==> IsWhole(x)
  {
    RoundNear(x);
    if k: int :| IsCount(x, k) {
      assert -1 < Round(x) - k < 1;
    }
    assert IsCount(x, Round(x)) <==> Round(x) as real == x;
  }

  lemma {:induction false} AtLeastTwice(k: real, m: nat)
    requires k >= 0.0 && m >= 2
    ensures Times(k, m) >= k + k
  {
    if m == 2 {
      assert Times(k, 1) == Times(k, 0) + k;
    } else {
      AtLeastTwice(k, m - 1);
    }
  }

  /** An uploaded ratio comes back unchanged if and only if packets were sent and it makes up
      a whole number of them, or none was sent, one was received and it is whole itself. */
  lemma RatioComesBackExactly(req: Request, shown: real)
    requires req.packetsLost == 0 && req.packetLoss > 0.0
    requires Shows(shown, LostPackets(req), req.packetsSent)
    ensures shown == req.packetLoss <==>
      || (req.packetsSent > 0 && IsWhole(Times(req.packetLoss, req.packetsSent)))
      || (req.packetsSent == 0 && req.packetsReceived == 1 && IsWhole(req.packetLoss))
  {
    var p, sent, received := req.packetLoss, req.packetsSent, req.packetsReceived;
    if sent > 0 {
      SentComesBack(p, sent, shown);
    } else if sent == 0 && received > 0 {
      ReceivedComesBack(p, received);
    }
  }

  lemma SentComesBack(p: real, n: int, shown: real)
    requires p > 0.0 && n > 0 && Times(shown, n) == LostOf(p, n) as real
    ensures shown == p <==> IsWhole(Times(p, n))
  {
    TimesOne(n);
    TimesGrows(0.0, p, n);
    RoundsToItself(Times(p, n));
    if shown < p {
      TimesGrows(shown, p, n);
    } else {
      TimesGrows(p, shown, n);
    }
  }

  lemma ReceivedComesBack(p: real, m: int)
    requires p > 0.0 && m > 0
    ensures LostOf(p, m) as real == p <==> m == 1 && IsWhole(p)
    ensures LostOf(p, m) >= 0
  {
    TimesOne(m);
    TimesGrows(0.0, p, m);
    RoundNear(Times(p, m));
    if m == 1 {
      assert Times(p, 1) == Times(p, 0) + p;
      RoundsToItself(p);
    } else {
      AtLeastTwice(p, m);
    }
  }

  /** Without packets sent, the value read back is within half a received packet of the
      uploaded ratio if and only if a single packet was received or the ratio makes up less
      than half a packet. */
  lemma CloseWithoutSent(p: real, m: int)
    requires p > 0.0 && m > 0
    ensures -HalfPacket(m) <= LostOf(p, m) as real - p <= HalfPacket(m) <==> m == 1 || Times(p, m) < 0.5
  {
    var k := LostOf(p, m);
    TimesOne(m);
    TimesGrows(0.0, p, m);
    RoundNear(Times(p, m));
    HalfPacketApart(k as real, p, m);
    if m == 1 {
      assert Times(k as real, 1) == Times(k as real, 0) + k as real;
    } else {
      AtLeastTwice(k as real, m);
    }
  }

  /** What an upload without an explicit count is read back as when nothing was sent: the
      count lost among the received packets, not a ratio; and with nothing received either,
      or a negative number sent, nothing, so that the ratio is lost. */
  lemma NothingSentReadsBackACount(req: Request, shown: real)
    requires req.packetsLost == 0 && req.packetLoss > 0.0 && req.packetsSent <= 0
    requires Shows(shown, LostPackets(req), req.packetsSent)
    ensures shown == if req.packetsSent == 0 && req.packetsReceived > 0
                     then LostOf(req.packetLoss, req.packetsReceived) as real else 0.0
  {
    if req.packetsSent == 0 && req.packetsReceived > 0 {
      ReceivedComesBack(req.packetLoss, req.packetsReceived);
    }
  }

  // ---------------------------------------------------------------- the resolution

  predicate IsDigit(c: char) {
    '0' <= c <= '9'
  }

  function Itoa(n: int): string
    requires n >= 0
  {
    if n < 10 then ['0' + n as char] else Itoa(n / 10) + ['0' + (n % 10) as char]
  }

  /** The leading digits of a text. */
  function LeadingDigits(s: string): (n: nat)
    ensures n <= |s|
  {
    if s == "" || !IsDigit(s[0]) then 0 else 1 + LeadingDigits(s[1..])
  }

  function ValueOf(digits: string): int
    requires forall i :: 0 <= i < |digits| ==> IsDigit(digits[i])
  {
    if digits == "" then 0 else 10 * ValueOf(digits[..|digits| - 1]) + digits[|digits| - 1] as int - '0' as int
  }

  function SkipSpaces(s: string): string {
    if s != "" && s[0] == ' ' then SkipSpaces(s[1..]) else s
  }

  /** Scans a decimal integer as %d does: leading spaces, an optional sign, at least one
      digit, and a value that fits. Returns the value and the rest of the text. */
  function ScanInt(s: string): Option<(int, string)> {
    var t := SkipSpaces(s);
    var negative := t != "" && t[0] == '-';
    var u := if t != "" && (t[0] == '-' || t[0] == '+') then t[1..] else t;
    var k := LeadingDigits(u);
    LeadingAreDigits(u);
    if k == 0 then None
    else
      var v := if negative then -ValueOf(u[..k]) else ValueOf(u[..k]);
      if -MAX_INT - 1 <= v <= MAX_INT then Some((v, u[k..])) else None
  }

  /** Scans "%dx%d"; what does not scan stays 0. */
  function ScanResolution(s: string): (int, int) {
    var first := ScanInt(s);
    if first.None? then (0, 0)
    else
      var (width, rest) := first.value;
      if rest == "" || rest[0] != 'x' then (width, 0)
      else
        var second := ScanInt(rest[1..]);
        (width, if second.Some? then second.value.0 else 0)
  }

  lemma {:induction false} LeadingAreDigits(s: string)
    ensures forall i :: 0 <= i < LeadingDigits(s) ==> IsDigit(s[i])
  {
    if s != "" && IsDigit(s[0]) {
      LeadingAreDigits(s[1..]);
      assert forall i :: 0 < i < LeadingDigits(s) ==> s[i] == s[1..][i - 1];
    }
  }

  lemma {:induction false} ItoaDigits(n: nat)
    ensures Itoa(n) != "" && forall i :: 0 <= i < |Itoa(n)| ==> IsDigit(Itoa(n)[i])
    ensures ValueOf(Itoa(n)) == n
  {
    if n >= 10 {
      ItoaDigits(n / 10);
      assert Itoa(n)[..|Itoa(n)| - 1] == Itoa(n / 10);
    }
  }

  lemma {:induction false} LeadingOfDigits(digits: string, rest: string)
    requires forall i :: 0 <= i < |digits| ==> IsDigit(digits[i])
    requires rest == "" || !IsDigit(rest[0])
    ensures LeadingDigits(digits + rest) == |digits|
  {
    if digits == "" {
      assert digits + rest == rest;
    } else {
      assert (digits + rest)[1..] == digits[1..] + rest;
      LeadingOfDigits(digits[1..], rest);
    }
  }

  lemma ScanItoa(n: nat, rest: string)
    requires n <= MAX_INT && (rest == "" || !IsDigit(rest[0]))
    ensures ScanInt(Itoa(n) + rest) == Some((n, rest))
  {
    ItoaDigits(n);
    LeadingOfDigits(Itoa(n), rest);
    assert (Itoa(n) + rest)[..|Itoa(n)|] == Itoa(n) && (Itoa(n) + rest)[|Itoa(n)|..] == rest;
    assert IsDigit((Itoa(n) + rest)[0]);
  }

  /** The printed "WxH" text scans back to the same width and height. */
  lemma ResolutionRoundTrip(width: nat, height: nat)
    requires width <= MAX_INT && height <= MAX_INT
    ensures ScanResolution(Itoa(width) + "x" + Itoa(height)) == (width, height)
  {
    var text := Itoa(width) + "x" + Itoa(height);
    assert text == Itoa(width) + ("x" + Itoa(height));
    ScanItoa(width, "x" + Itoa(height));
    assert ("x" + Itoa(height))[1..] == Itoa(height) + "";
    ScanItoa(height, "");
  }

  /** An uploaded text that prints two positive numbers is stored as them, whatever explicit
      numbers come with it. */
  lemma TextWins(req: Request, width: int, height: int)
    requires 0 < width <= MAX_INT && 0 < height <= MAX_INT && req.resolution == Itoa(width) + "x" + Itoa(height)
    ensures StoredResolution(req) == (width, height)
  {
    ResolutionRoundTrip(width, height);
  }
}
