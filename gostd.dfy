/**
 * The two pieces of Go's standard library whose exact behaviour the core
 * depends on: `strings.Split` with a one-character separator, and the
 * conversion `int32(x)` of a 64-bit integer, which wraps around.
 */
module GoStd {

  /** Go's `int`: a signed 64-bit integer. */
  type Int64 = x: int | -0x8000_0000_0000_0000 <= x < 0x8000_0000_0000_0000

  const Int32Min: int := -0x8000_0000
  const Int32Limit: int := 0x8000_0000
  const Int32Modulus: int := 0x1_0000_0000

  /** `int32(x)`: keeps the low 32 bits of x, read as a two's-complement number. */
  function ToInt32(x: int): (r: int)
    ensures Int32Min <= r < Int32Limit
    ensures (x - r) % Int32Modulus == 0
  {
    var low := x % Int32Modulus;
    if low < Int32Limit then low else low - Int32Modulus
  }

  /** A value that already fits in 32 bits is not changed by the conversion. */
  lemma ToInt32KeepsInRange(x: int)
    requires Int32Min <= x < Int32Limit
    ensures ToInt32(x) == x
  {
    if x < 0 {
      assert x % Int32Modulus == x + Int32Modulus;
    } else {
      assert x % Int32Modulus == x;
    }
  }

  /** The parts joined back together, with the separator between consecutive parts (`strings.Join`). */
  function Join(parts: seq<string>, sep: char): string
    decreases |parts|
  {
    if |parts| == 0 then ""
    else if |parts| == 1 then parts[0]
    else parts[0] + [sep] + Join(parts[1..], sep)
  }

  /**
   * `strings.Split(s, string(sep))`: the maximal pieces of s between
   * separators. It never returns an empty list — the empty string splits
   * into one empty part — and joining the parts gives s back.
   */
  function Split(s: string, sep: char): (parts: seq<string>)
    ensures |parts| >= 1
    ensures Join(parts, sep) == s
    ensures forall k :: 0 <= k < |parts| ==> sep !in parts[k]
    decreases |s|
  {
    if |s| == 0 then [""]
    else
      var rest := Split(s[1..], sep);
      if s[0] == sep then
        assert ([""] + rest)[1..] == rest;
        [""] + rest
      else
        var parts := [[s[0]] + rest[0]] + rest[1..];
        assert parts[1..] == rest[1..];
        assert |rest| > 1 ==> Join(rest, sep) == rest[0] + [sep] + Join(rest[1..], sep);
        assert s == [s[0]] + s[1..];
        parts
  }

  /**
   * Split is the only way to cut s into at least one separator-free piece
   * whose join is s.
   */
  lemma {:induction false} SplitUnique(s: string, sep: char, parts: seq<string>)
    requires |parts| >= 1
    requires Join(parts, sep) == s
    requires forall k :: 0 <= k < |parts| ==> sep !in parts[k]
    ensures Split(s, sep) == parts
    decreases |s|
  {
    if |parts| >= 2 {
      assert s == parts[0] + [sep] + Join(parts[1..], sep);
    }
    if |s| == 0 {
      assert |parts| == 1;
    } else if |parts| == 1 {
      assert sep !in s && s[0] in s;
      var tail := [s[1..]];
      SplitUnique(s[1..], sep, tail);
      assert parts == [s] && s == [s[0]] + s[1..];
    } else {
      var tailJoin := Join(parts[1..], sep);
      if parts[0] == "" {
        assert s == [sep] + tailJoin;
        assert s[1..] == tailJoin;
        SplitUnique(s[1..], sep, parts[1..]);
        assert [""] + parts[1..] == parts;
      } else {
        var head := parts[0];
        assert s[0] == head[0];
        assert s[0] != sep by { assert head[0] in head; }
        var shorter := [head[1..]] + parts[1..];
        assert shorter[1..] == parts[1..];
        assert Join(shorter, sep) == head[1..] + [sep] + tailJoin;
        assert s[1..] == head[1..] + [sep] + tailJoin;
        forall k | 0 <= k < |shorter| ensures sep !in shorter[k] {
          if k == 0 {
            assert forall c :: c in head[1..] ==> c in head;
          } else {
            assert shorter[k] == parts[k];
          }
        }
        SplitUnique(s[1..], sep, shorter);
        assert head == [head[0]] + head[1..];
        assert [[s[0]] + head[1..]] + parts[1..] == parts;
      }
    }
  }
}
