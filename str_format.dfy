/** The `str` formatter: pad and truncate, or rotate text that is wider than
    `max_width`, then escape for Pango markup. */
module StrFormat {
  import opened Wrappers
  import opened Values
  import opened FormatterTypes

  function Min(a: int, b: int): int { if a <= b then a else b }
  function Max(a: int, b: int): int { if a <= b then b else a }

  /** `usize::saturating_sub`. */
  function SaturatingSub(a: nat, b: nat): nat { if b <= a then a - b else 0 }

  /** `Iterator::take` on a character sequence. */
  function Take(s: string, n: nat): string { if n <= |s| then s[..n] else s }

  /** `Iterator::skip` on a character sequence. */
  function Drop(s: string, n: nat): string { if n <= |s| then s[n..] else [] }

  function Spaces(n: nat): (r: string)
    ensures |r| == n && forall i :: 0 <= i < n ==> r[i] == ' '
  {
    seq(n, _ => ' ')
  }

  /** `collect_pango_escaped`: every character replaced by its escape
      `esc(c)`, which is the character itself unless it is markup. */
  function Escape(s: string, esc: char -> string): string
    decreases |s|
  {
    if s == [] then [] else esc(s[0]) + Escape(s[1..], esc)
  }

  /** The non-rotating path before escaping, as the iterator chain of the
      source: the text, then `min_width - len` spaces (saturating), at most
      `max_width` characters of it. */
  function PaddedChars(text: string, minWidth: nat, maxWidth: nat): (r: string)
    ensures |r| == Min(Max(|text|, minWidth), maxWidth)
    ensures minWidth <= maxWidth ==> |r| == Max(Min(|text|, maxWidth), minWidth)
    ensures forall i :: 0 <= i < |r| ==> r[i] == if i < |text| then text[i] else ' '
  {
    Take(text + Spaces(SaturatingSub(minWidth, |text|)), maxWidth)
  }

  /** The rotating path before escaping, as the iterator chain of the
      source: `text ++ "|"` from `step` on, at most `w1` characters, then the
      text again, at most `max_width` characters in all. */
  function RotatedChars(text: string, maxWidth: nat, step: nat): string
    requires step <= |text|
  {
    var w1 := Min(maxWidth, |text| + 1 - step);
    Take(Take(Drop(text + ['|'], step), w1) + text, maxWidth)
  }

  /** The window of width `max_width` at offset `step` into
      `text ++ "|" ++ text`. */
  function Window(text: string, maxWidth: nat, step: nat): (r: string)
    requires step <= |text| && maxWidth <= |text|
  {
    (text + ['|'] + text)[step .. step + maxWidth]
  }

  /** The rotating chain shows exactly the window of the text followed by
      its separator and the text again, `max_width` characters long. */
  lemma RotationIsWindow(text: string, maxWidth: nat, step: nat)
    requires maxWidth < |text| && step <= |text|
    ensures RotatedChars(text, maxWidth, step) == Window(text, maxWidth, step)
    ensures |RotatedChars(text, maxWidth, step)| == maxWidth
  {
    var ring := text + ['|'];
    var w1 := Min(maxWidth, |text| + 1 - step);
    assert Drop(ring, step) == ring[step..];
    assert Take(ring[step..], w1) == ring[step .. step + w1];
    var chain := ring[step .. step + w1] + text;
    assert |chain| >= maxWidth;
    forall i | 0 <= i < maxWidth
      ensures chain[i] == (text + ['|'] + text)[step + i]
    {
      if i < w1 {
        assert chain[i] == ring[step + i];
      } else {
        assert chain[i] == text[i - w1];
        assert step + w1 == |ring|;
      }
    }
  }

  /** Milliseconds since `initTime` at clock reading `now`; like
      `Instant::elapsed`, never negative. */
  function Elapsed(initTime: nat, now: nat): nat {
    SaturatingSub(now, initTime)
  }

  /** Whether the text of `len` characters is rotated: an interval and a
      creation time are set and the text is wider than `max_width`. */
  predicate Rotates(f: StrFormatter, len: nat) {
    f.rotIntervalMs.Some? && f.initTime.Some? && len > f.maxWidth
  }

  /** A formatter whose rotation interval is not zero, which the division
      in the rotation step needs. */
  predicate Usable(f: StrFormatter) {
    f.rotIntervalMs != Some(0)
  }

  /** The rotation step: whole intervals elapsed, modulo `len + 1`. */
  function RotationStep(f: StrFormatter, len: nat, now: nat): (s: nat)
    requires Rotates(f, len) && Usable(f)
    ensures s <= len
  {
    (Elapsed(f.initTime.value, now) / f.rotIntervalMs.value) % (len + 1)
  }

  /** `StrFormatter::format` at clock reading `now`, escaping with `esc`. */
  function Format(f: StrFormatter, v: Value, now: nat, esc: char -> string)
    : (r: Result<string, FormatError>)
    requires v.Text? && Rotates(f, |v.text|) ==> Usable(f)
    ensures v.Text? && Rotates(f, |v.text|) ==>
      r == Success(Escape(Window(v.text, f.maxWidth, RotationStep(f, |v.text|, now)), esc))
    ensures v.Text? && !Rotates(f, |v.text|) ==>
      r == Success(if f.pango then PaddedChars(v.text, f.minWidth, f.maxWidth)
                   else Escape(PaddedChars(v.text, f.minWidth, f.maxWidth), esc))
    ensures v.Icon? ==> r == Success(v.icon)
    ensures v.Number? || v.Flag? ==> r == Failure(CannotFormat(KindOf(v), "str"))
  {
    match v
    case Text(text) =>
      if Rotates(f, |text|) then
        var step := RotationStep(f, |text|, now);
        RotationIsWindow(text, f.maxWidth, step);
        Success(Escape(RotatedChars(text, f.maxWidth, step), esc))
      else
        var chars := PaddedChars(text, f.minWidth, f.maxWidth);
        Success(if f.pango then chars else Escape(chars, esc))
    case Icon(icon) => Success(icon)
    case Number(_, _) => Failure(CannotFormat(NumberKind, "str"))
    case Flag => Failure(CannotFormat(FlagKind, "str"))
  }

  /** Before escaping, rotated text is exactly `max_width` characters and
      advances by one character per interval, wrapping after `len + 1`
      intervals. */
  lemma RotationAdvances(f: StrFormatter, text: string, now: nat)
    requires Usable(f) && Rotates(f, |text|)
    requires f.initTime.value <= now
    ensures |Window(text, f.maxWidth, RotationStep(f, |text|, now))| == f.maxWidth
    ensures RotationStep(f, |text|, now + f.rotIntervalMs.value)
         == (RotationStep(f, |text|, now) + 1) % (|text| + 1)
  {
    var ms := f.rotIntervalMs.value;
    var e := now - f.initTime.value;
    assert Elapsed(f.initTime.value, now + ms) == e + ms;
    assert e == (e / ms) * ms + e % ms;
    DivModUnique(e + ms, ms, e / ms + 1, e % ms);
    ModSucc(e / ms, |text| + 1);
  }

  lemma ModSucc(a: nat, n: nat)
    requires n > 0
    ensures (a + 1) % n == (a % n + 1) % n
  {
    var q, r := a / n, a % n;
    assert a == q * n + r;
    if r + 1 < n {
      DivModUnique(a + 1, n, q, r + 1);
      DivModUnique(r + 1, n, 0, r + 1);
    } else {
      assert a + 1 == (q + 1) * n + 0;
      DivModUnique(a + 1, n, q + 1, 0);
      DivModUnique(n, n, 1, 0);
    }
  }

  /** Euclidean division has one quotient and remainder. */
  lemma DivModUnique(x: nat, n: nat, q: int, r: int)
    requires n > 0 && 0 <= r < n && x == q * n + r
    ensures x / n == q && x % n == r
  {
    var q', r' := x / n, x % n;
    assert x == q' * n + r';
    var d := q - q';
    assert d * n == r' - r;
    if d >= 1 {
      MulAtLeast(d, n);
      assert false;
    } else if d <= -1 {
      MulAtLeast(-d, n);
      assert false;
    }
  }

  lemma {:induction false} MulAtLeast(d: int, n: int)
    requires d >= 1 && n > 0
    ensures d * n >= n && (-d) * n <= -n
    decreases d
  {
    if d > 1 {
      MulAtLeast(d - 1, n);
      assert d * n == (d - 1) * n + n;
    }
  }

  /** Escaping distributes over concatenation. */
  lemma {:induction false} EscapeAppend(a: string, b: string, esc: char -> string)
    ensures Escape(a + b, esc) == Escape(a, esc) + Escape(b, esc)
    decreases |a|
  {
    if a == [] {
      assert a + b == b;
    } else {
      assert (a + b)[0] == a[0];
      assert (a + b)[1..] == a[1..] + b;
      EscapeAppend(a[1..], b, esc);
    }
  }

  /** Escaping with an escape that leaves every character alone is the
      identity, so `pango=true` and plain text agree when nothing is markup. */
  lemma {:induction false} EscapeIdentity(s: string, esc: char -> string)
    requires forall c :: c in s ==> esc(c) == [c]
    ensures Escape(s, esc) == s
    decreases |s|
  {
    if s != [] {
      assert s == [s[0]] + s[1..];
      EscapeIdentity(s[1..], esc);
    }
  }

  /** The default `str` formatter renders `a<b` as `a&lt;b`: escaped and
      neither padded nor truncated. */
  lemma EscapedScenario(esc: char -> string, now: nat)
    requires esc('a') == "a" && esc('b') == "b" && esc('<') == "&lt;"
    ensures Format(DEFAULT_STRING_FORMATTER, Text("a<b"), now, esc) == Success("a&lt;b")
  {
    var chars := PaddedChars("a<b", 0, USIZE_MAX);
    assert chars == "a<b";
    assert !Rotates(DEFAULT_STRING_FORMATTER, 3);
    assert Format(DEFAULT_STRING_FORMATTER, Text("a<b"), now, esc) == Success(Escape(chars, esc));
    assert "a<b"[0] == 'a' && "a<b"[1..] == "<b";
    assert "<b"[0] == '<' && "<b"[1..] == "b";
    assert "b"[0] == 'b' && "b"[1..] == "";
    assert Escape("a<b", esc) == esc('a') + Escape("<b", esc);
    assert Escape("<b", esc) == esc('<') + Escape("b", esc);
    assert Escape("b", esc) == esc('b') + Escape("", esc);
    assert "a" + ("&lt;" + ("b" + "")) == "a&lt;b";
  }
}
