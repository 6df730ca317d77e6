/**
 * The PlusROM endpoint signature: a path string and a host string, each
 * ended by a zero byte, stored somewhere in the ROM image. This module holds
 * the two character classes, the scan that finds where a run of allowed
 * characters ends, the acceptance rule of `checkROM`, and the endpoint scan
 * that every PlusROM-capable format runs when it is created.
 */
module PlusScan {
  import opened Basics

  /** `isValidHostChar`: '-', '.', digits, upper-case letters, and 'a' to 'y'. */
  predicate IsValidHostChar(cc: int)
  {
    cc == 45 || cc == 46 || (cc > 47 && cc < 58) || (cc > 64 && cc < 91) || (cc > 96 && cc < 122)
  }

  /** `isValidPathChar`: '-', '.', '/', digits, upper-case letters, and 'a' to 'y'. */
  predicate IsValidPathChar(cc: int)
  {
    (cc > 44 && cc < 58) || (cc > 64 && cc < 91) || (cc > 96 && cc < 122)
  }

  /** Which of the two strings a scan is reading. */
  datatype Field = PathField | HostField

  predicate Allowed(f: Field, cc: int)
  {
    match f
    case PathField => IsValidPathChar(cc)
    case HostField => IsValidHostChar(cc)
  }

  lemma HostCharacters(cc: int)
    ensures IsValidHostChar(cc) <==>
      cc == '-' as int || cc == '.' as int || ('0' as int <= cc <= '9' as int) ||
      ('A' as int <= cc <= 'Z' as int) || ('a' as int <= cc <= 'y' as int)
    ensures !IsValidHostChar('z' as int) && !IsValidHostChar('/' as int) && !IsValidHostChar(':' as int)
  {
  }

  lemma PathCharactersAreHostCharactersAndSlash(cc: int)
    ensures IsValidPathChar(cc) <==> IsValidHostChar(cc) || cc == '/' as int
  {
  }

  /**
   * A zero byte, and a byte past the end of the image, stop every scan.
   * `RunEnd` relies on this through `Allowed`; the lemma states it on its own
   * for a reader.
   */
  lemma TerminatorsStopScans(f: Field)
    ensures !Allowed(f, 0) && !Allowed(f, UNDEFINED)
  {
  }

  /**
   * The index at which a scan for field `f` that starts at `i` stops: the
   * first index at or after `i` whose byte is not an allowed character (an
   * index outside the image always stops it).
   */
  function RunEnd(s: seq<int>, i: int, f: Field): (j: int)
    decreases |s| - i
    ensures i <= j && (i < j ==> 0 <= i && j <= |s|)
    ensures forall k :: i <= k < j ==> 0 <= k < |s| && Allowed(f, s[k])
    ensures !Allowed(f, At(s, j))
  {
    if Allowed(f, At(s, i)) then
      assert 0 <= i < |s| && Allowed(f, s[i]);
      RunEnd(s, i + 1, f)
    else
      i
  }

  /** The run end is the first non-allowed index, so any such index is it. */
  lemma RunEndIs(s: seq<int>, i: int, j: int, f: Field)
    requires i <= j
    requires forall k :: i <= k < j ==> Allowed(f, At(s, k))
    requires !Allowed(f, At(s, j))
    ensures RunEnd(s, i, f) == j
  {
  }

  /** `String.fromCharCode` applied to the bytes `s[i..j]`; empty when the range is not in the image. */
  function Text(s: seq<byte>, i: int, j: int): (t: string)
    ensures 0 <= i <= j <= |s| ==> |t| == j - i && forall k :: 0 <= k < j - i ==> t[k] as int == s[i + k]
    ensures !(0 <= i <= j <= |s|) ==> t == ""
  {
    if 0 <= i <= j <= |s| then seq(j - i, k requires 0 <= k < j - i => s[i + k] as char) else ""
  }

  /**
   * The acceptance rule of `checkROM` for a scan starting at `start`: the path
   * run is followed by a zero byte, the host run after it is followed by a zero
   * byte, and the host has at least three characters, one of them a '.'.
   */
  predicate AcceptsFrom(s: seq<byte>, start: int)
  {
    var p := RunEnd(s, start, PathField);
    At(s, p) == 0 &&
    var h := RunEnd(s, p + 1, HostField);
    At(s, h) == 0 && h - (p + 1) >= 3 && '.' in Text(s, p + 1, h)
  }

  /**
   * A signature laid out explicitly: path characters from `start` up to a zero
   * byte at `p`, then host characters up to a zero byte at `h`, with at least
   * three host characters and a '.' among them.
   */
  predicate Signature(s: seq<byte>, start: int, p: int, h: int)
  {
    0 <= start <= p && p + 4 <= h < |s| && s[p] == 0 && s[h] == 0 &&
    (forall k :: start <= k < p ==> IsValidPathChar(s[k])) &&
    (forall k :: p < k < h ==> IsValidHostChar(s[k])) &&
    '.' in Text(s, p + 1, h)
  }

  /** Both directions of the acceptance rule, stated without the scan. */
  lemma {:induction false} AcceptsFromExactly(s: seq<byte>, start: int)
    ensures AcceptsFrom(s, start) <==> exists p, h :: Signature(s, start, p, h)
  {
    if AcceptsFrom(s, start) {
      var p := RunEnd(s, start, PathField);
      var h := RunEnd(s, p + 1, HostField);
      assert Signature(s, start, p, h);
    }
    if exists p, h :: Signature(s, start, p, h) {
      var p, h :| Signature(s, start, p, h);
      SignatureIsScanned(s, start, p, h);
    }
  }

  /** A laid-out signature is exactly where the two scans stop. */
  lemma SignatureIsScanned(s: seq<byte>, start: int, p: int, h: int)
    requires Signature(s, start, p, h)
    ensures RunEnd(s, start, PathField) == p && RunEnd(s, p + 1, HostField) == h
    ensures AcceptsFrom(s, start)
  {
  }

  /**
   * The endpoint scan run at cartridge creation: collect path characters from
   * `start`, skip one byte whatever it is, then collect host characters. Unlike
   * `checkROM` it checks neither terminator, length nor '.'.
   */
  method ScanEndpoint(image: seq<byte>, start: int) returns (path: string, host: string)
    ensures path == Text(image, start, RunEnd(image, start, PathField))
    ensures host == Text(image, RunEnd(image, start, PathField) + 1,
                         RunEnd(image, RunEnd(image, start, PathField) + 1, HostField))
  {
    var i;
    path, i := ScanRun(image, start, PathField);
    i := i + 1;
    host, i := ScanRun(image, i, HostField);
  }

  /**
   * One scan loop, `while (isValid…Char(bytes[i])) s += String.fromCharCode(bytes[i++])`:
   * the characters collected and the index where it stops.
   */
  method ScanRun(image: seq<byte>, start: int, f: Field) returns (text: string, i: int)
    ensures i == RunEnd(image, start, f) && text == Text(image, start, i)
  {
    i := start;
    text := "";
    while Allowed(f, At(image, i))
      invariant start <= i && (0 <= start || i == start)
      invariant RunEnd(image, i, f) == RunEnd(image, start, f)
      invariant text == Text(image, start, i)
      decreases |image| - i
    {
      text := text + [image[i] as char];
      i := i + 1;
    }
  }

  /**
   * Whatever `ScanEndpoint` returns from a start the acceptance rule accepts
   * is a well-formed endpoint: a host of at least three host characters with a
   * '.', and a path of path characters.
   */
  lemma AcceptedEndpointIsWellFormed(s: seq<byte>, start: int)
    requires AcceptsFrom(s, start)
    ensures var p := RunEnd(s, start, PathField);
            var path := Text(s, start, p);
            var host := Text(s, p + 1, RunEnd(s, p + 1, HostField));
            |host| >= 3 && '.' in host &&
            (forall k :: 0 <= k < |host| ==> IsValidHostChar(host[k] as int)) &&
            (forall k :: 0 <= k < |path| ==> IsValidPathChar(path[k] as int))
  {
  }
}
