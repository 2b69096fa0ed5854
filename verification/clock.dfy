/** Server time in the fixed business timezone (Asia/Kolkata, which has no
    daylight saving), and the zero-padded 'H:i' rendering that the day-count
    rules compare as strings. */
module Clock {

  /** Seconds of local wall-clock time since midnight of day 0. */
  type Timestamp = nat

  const SECONDS_PER_DAY: nat := 86400

  /** The calendar day of a timestamp, as a day number (DATE(...) in SQL). */
  function Day(t: Timestamp): nat {
    t / SECONDS_PER_DAY
  }

  /** Minutes since local midnight; seconds are dropped, as format('H:i') does. */
  function MinuteOfDay(t: Timestamp): (m: nat)
    ensures m < 1440
  {
    (t % SECONDS_PER_DAY) / 60
  }

  /** The decimal digit character of d. */
  function Digit(d: nat): (c: char)
    requires d < 10
    ensures '0' <= c <= '9'
  {
    ('0' as int + d) as char
  }

  /** The zero-padded 'H:i' text of a minute of the day. */
  function Hi(m: nat): (s: string)
    requires m < 1440
    ensures |s| == 5 && s[2] == ':'
  {
    var h, mm := m / 60, m % 60;
    [Digit(h / 10), Digit(h % 10), ':', Digit(mm / 10), Digit(mm % 10)]
  }

  /** format('H:i') of a timestamp. */
  function FormatHi(t: Timestamp): string {
    Hi(MinuteOfDay(t))
  }

  /** PHP's comparison of two non-numeric strings: byte-wise lexicographic
      order, a proper prefix ordering first. LexLe(a, b) is `a <= b`. */
  function LexLe(a: string, b: string): bool {
    if a == [] then true
    else if b == [] then false
    else if a[0] != b[0] then a[0] < b[0]
    else LexLe(a[1..], b[1..])
  }

  /** Lexicographic order on five-character strings that agree at index 2,
      spelled out character by character. */
  lemma {:induction false} LexLeFive(a: string, b: string)
    requires |a| == 5 && |b| == 5 && a[2] == b[2]
    ensures LexLe(a, b) <==>
      (a[0] < b[0] ||
       (a[0] == b[0] && (a[1] < b[1] ||
        (a[1] == b[1] && (a[3] < b[3] ||
         (a[3] == b[3] && a[4] <= b[4]))))))
  {
    var a1, b1 := a[1..], b[1..];
    var a2, b2 := a1[1..], b1[1..];
    var a3, b3 := a2[1..], b2[1..];
    var a4, b4 := a3[1..], b3[1..];
    var a5, b5 := a4[1..], b4[1..];
    assert a1[0] == a[1] && b1[0] == b[1] && a2[0] == a[2] && b2[0] == b[2];
    assert a3[0] == a[3] && b3[0] == b[3] && a4[0] == a[4] && b4[0] == b[4];
    assert a5 == [] && b5 == [];
    assert LexLe(a4, b4) == (if a4[0] != b4[0] then a4[0] < b4[0] else LexLe(a5, b5));
    assert LexLe(a3, b3) == (if a3[0] != b3[0] then a3[0] < b3[0] else LexLe(a4, b4));
    assert LexLe(a2, b2) == LexLe(a3, b3);
    assert LexLe(a1, b1) == (if a1[0] != b1[0] then a1[0] < b1[0] else LexLe(a2, b2));
    assert LexLe(a, b) == (if a[0] != b[0] then a[0] < b[0] else LexLe(a1, b1));
  }

  /** The digit decomposition of a minute of the day that Hi renders. */
  lemma MinuteDigits(m: nat)
    requires m < 1440
    ensures m == 600 * (m / 60 / 10) + 60 * (m / 60 % 10) + 10 * (m % 60 / 10) + m % 60 % 10
    ensures m / 60 / 10 <= 2 && m % 60 / 10 < 6
  {
  }

  /** Comparing two 'H:i' strings as PHP does orders them exactly as the
      minutes they render. */
  lemma HiOrder(a: nat, b: nat)
    requires a < 1440 && b < 1440
    ensures LexLe(Hi(a), Hi(b)) <==> a <= b
  {
    var sa, sb := Hi(a), Hi(b);
    LexLeFive(sa, sb);
    MinuteDigits(a);
    MinuteDigits(b);
    assert sa[0] < sb[0] <==> a / 60 / 10 < b / 60 / 10;
    assert sa[1] < sb[1] <==> a / 60 % 10 < b / 60 % 10;
    assert sa[3] < sb[3] <==> a % 60 / 10 < b % 60 / 10;
    assert sa[4] <= sb[4] <==> a % 60 % 10 <= b % 60 % 10;
  }

  /** The configured 'H:i' constants are the renderings of these minutes. */
  lemma HiConstants()
    ensures Hi(600) == "10:00" && Hi(615) == "10:15" && Hi(1140) == "19:00"
  {
  }
}
