/**
  Naming of the converter's output (CsvConverter.Load and ConsumerThread):
  the output location is the root directory combined with the input hash
  written as hexadecimal, and an index path is derived from the output path
  by rewriting ".output" to ".index".
 */
module Naming {
  import opened Bytes
  import opened Text

  /** The digits `BitConverter.ToString` uses: upper case. */
  const HexDigits: string := "0123456789ABCDEF"

  /** One byte as two hexadecimal digits, high nibble first. */
  function Hex2(b: byte): string
  {
    [HexDigits[b as int / 16], HexDigits[b as int % 16]]
  }

  /** `BitConverter.ToString(byte[])`: each byte as two digits, pairs joined by '-'. */
  function BitConverterString(bytes: seq<byte>): string
  {
    if |bytes| == 0 then ""
    else if |bytes| == 1 then Hex2(bytes[0])
    else Hex2(bytes[0]) + "-" + BitConverterString(bytes[1..])
  }

  /** The name of the output location: `BitConverter.ToString(hash).Replace("-", "")`. */
  function DirectoryName(hash: seq<byte>): string
  {
    Replace(BitConverterString(hash), "-", "")
  }

  /** Reference encoding: the two-digit forms of the bytes, concatenated with no separator. */
  function HexOf(bytes: seq<byte>): string
  {
    if bytes == [] then [] else Hex2(bytes[0]) + HexOf(bytes[1..])
  }

  /** The value of a hexadecimal digit; characters that are not digits read as 0. */
  function DigitValue(c: char): (v: nat)
    ensures v < 16
  {
    if '0' <= c <= '9' then c as int - '0' as int
    else if 'A' <= c <= 'F' then c as int - 'A' as int + 10
    else 0
  }

  /** Reads pairs of hexadecimal digits back into bytes. */
  function DecodeHex(s: string): seq<byte>
  {
    if |s| < 2 then [] else [(DigitValue(s[0]) * 16 + DigitValue(s[1])) as byte] + DecodeHex(s[2..])
  }

  /** Removing the dashes from `BitConverter.ToString` gives exactly the reference encoding. */
  lemma {:induction false} DirectoryNameIsHex(hash: seq<byte>)
    ensures DirectoryName(hash) == HexOf(hash)
  {
    if |hash| == 0 {
    } else {
      var h := Hex2(hash[0]);
      ForeignNotContains(h, "-");
      ReplaceAbsent(h, "-", "");
      if |hash| == 1 {
        assert hash[1..] == [];
        assert HexOf(hash) == h;
      } else {
        var rest := BitConverterString(hash[1..]);
        assert BitConverterString(hash) == (h + "-") + rest;
        ReplaceCharConcat(h + "-", rest, "-", "");
        ReplaceCharConcat(h, "-", "-", "");
        DirectoryNameIsHex(hash[1..]);
      }
    }
  }

  /** An upper-case hexadecimal digit. */
  predicate IsHexDigit(c: char)
  {
    '0' <= c <= '9' || 'A' <= c <= 'F'
  }

  /** Each entry of the digit table is a digit that reads back as its own position. */
  lemma DigitAt(n: int)
    requires 0 <= n < 16
    ensures IsHexDigit(HexDigits[n]) && DigitValue(HexDigits[n]) == n
  {
    if n < 10 {
      assert HexDigits[n] as int == '0' as int + n by {
        assert HexDigits[..10] == "0123456789";
      }
    } else {
      assert HexDigits[n] as int == 'A' as int + n - 10 by {
        assert HexDigits[10..] == "ABCDEF";
      }
    }
  }

  /** Two digits per byte. */
  lemma {:induction false} HexOfLength(bytes: seq<byte>)
    ensures |HexOf(bytes)| == 2 * |bytes|
  {
    if bytes != [] {
      HexOfLength(bytes[1..]);
    }
  }

  /** Every character of the encoding is an upper-case hexadecimal digit. */
  lemma {:induction false} HexOfDigits(bytes: seq<byte>)
    ensures forall k :: 0 <= k < |HexOf(bytes)| ==> IsHexDigit(HexOf(bytes)[k])
  {
    if bytes != [] {
      HexOfDigits(bytes[1..]);
      var h := Hex2(bytes[0]);
      DigitAt(bytes[0] as int / 16);
      DigitAt(bytes[0] as int % 16);
      assert HexOf(bytes) == h + HexOf(bytes[1..]);
      forall k | 0 <= k < |HexOf(bytes)|
        ensures IsHexDigit(HexOf(bytes)[k])
      {
        if k >= 2 {
          assert HexOf(bytes)[k] == HexOf(bytes[1..])[k - 2];
        }
      }
    }
  }

  /** Decoding the encoding gives back the bytes. */
  lemma {:induction false} DecodeHexOf(bytes: seq<byte>)
    ensures DecodeHex(HexOf(bytes)) == bytes
  {
    if bytes != [] {
      var b := bytes[0];
      var s := HexOf(bytes);
      DigitAt(b as int / 16);
      DigitAt(b as int % 16);
      assert s[..2] == Hex2(b) && s[2..] == HexOf(bytes[1..]);
      DecodeHexOf(bytes[1..]);
      assert [b] + bytes[1..] == bytes;
    }
  }

  /**
    Content addressing: distinct hashes give distinct names, and the name
    has two upper-case hexadecimal digits per hash byte.
   */
  lemma DirectoryNameInjective(a: seq<byte>, b: seq<byte>)
    requires DirectoryName(a) == DirectoryName(b)
    ensures a == b
  {
    DirectoryNameIsHex(a);
    DirectoryNameIsHex(b);
    DecodeHexOf(a);
    DecodeHexOf(b);
  }

  /** The name consists of exactly two upper-case hexadecimal digits per hash byte. */
  lemma DirectoryNameShape(hash: seq<byte>)
    ensures |DirectoryName(hash)| == 2 * |hash|
    ensures forall k :: 0 <= k < |DirectoryName(hash)| ==> IsHexDigit(DirectoryName(hash)[k])
  {
    DirectoryNameIsHex(hash);
    HexOfLength(hash);
    HexOfDigits(hash);
  }

  /** The separators `Path.Combine` recognises at the end of its first argument (Windows). */
  predicate IsSeparator(c: char)
  {
    c == '\\' || c == '/' || c == ':'
  }

  /** `Path.IsPathRooted` on Windows: a leading directory separator or a drive letter. */
  predicate IsPathRooted(p: string)
  {
    (|p| >= 1 && (p[0] == '\\' || p[0] == '/')) || (|p| >= 2 && p[1] == ':')
  }

  /** `Path.Combine(path1, path2)` with the .NET Framework rules on Windows. */
  function PathCombine(path1: string, path2: string): string
  {
    if |path2| == 0 then path1
    else if |path1| == 0 then path2
    else if IsPathRooted(path2) then path2
    else if IsSeparator(path1[|path1| - 1]) then path1 + path2
    else path1 + "\\" + path2
  }

  /** What `Path.Combine` puts between a root and a relative name. */
  function SeparatorAfter(root: string): string
  {
    if |root| == 0 || IsSeparator(root[|root| - 1]) then "" else "\\"
  }

  /** The output location of `Load`: the root combined with the hash's name. */
  function OutputPath(root: string, hash: seq<byte>): string
  {
    PathCombine(root, DirectoryName(hash))
  }

  /**
    The output location is the root, one separator when the root does not
    already end in one, and the hexadecimal name; for an empty hash it is
    the root itself.
   */
  lemma OutputPathShape(root: string, hash: seq<byte>)
    ensures |hash| == 0 ==> OutputPath(root, hash) == root
    ensures |hash| > 0 ==> OutputPath(root, hash) == root + SeparatorAfter(root) + HexOf(hash)
  {
    DirectoryNameIsHex(hash);
    HexOfLength(hash);
    if |hash| > 0 {
      HexOfDigits(hash);
      CombineRelative(root, HexOf(hash));
    }
  }

  /** A name that starts with two digits is not rooted, so it is appended to the root. */
  lemma CombineRelative(root: string, name: string)
    requires |name| >= 2 && IsHexDigit(name[0]) && IsHexDigit(name[1])
    ensures PathCombine(root, name) == root + SeparatorAfter(root) + name
  {
    assert !IsPathRooted(name);
    if |root| == 0 {
      assert root + SeparatorAfter(root) + name == name;
    }
  }

  /** Under one root, distinct hashes give distinct output locations. */
  lemma OutputPathInjective(root: string, a: seq<byte>, b: seq<byte>)
    requires OutputPath(root, a) == OutputPath(root, b)
    ensures a == b
  {
    OutputPathShape(root, a);
    OutputPathShape(root, b);
    HexOfLength(a);
    HexOfLength(b);
    var p := root + SeparatorAfter(root);
    if |a| > 0 && |b| > 0 {
      assert HexOf(a) == OutputPath(root, a)[|p|..];
      assert HexOf(b) == OutputPath(root, b)[|p|..];
      DecodeHexOf(a);
      DecodeHexOf(b);
    }
  }

  const OutputExtension: string := ".output"
  const IndexExtension: string := ".index"

  /** The index path of `ConsumerThread`: `filePath.Replace(".output", ".index")`. */
  function IndexPath(filePath: string): string
  {
    Replace(filePath, OutputExtension, IndexExtension)
  }

  /**
    A dot-free prefix of an index path was already a prefix of the path it
    came from: the rewrite only ever introduces text that starts with '.'.
   */
  lemma {:induction false} IndexPathPrefix(t: string, w: string)
    requires forall k :: 0 <= k < |w| ==> w[k] != '.'
    ensures StartsWith(IndexPath(t), w) ==> StartsWith(t, w)
    decreases |t|
  {
    if |t| >= |OutputExtension| && t[..|OutputExtension|] != OutputExtension && |w| > 0 {
      var rest := IndexPath(t[1..]);
      assert IndexPath(t) == [t[0]] + rest;
      IndexPathPrefix(t[1..], w[1..]);
      if StartsWith(IndexPath(t), w) {
        assert ([t[0]] + rest)[..|w|] == [t[0]] + rest[..|w| - 1];
        assert StartsWith(rest, w[1..]);
        assert t[..|w|] == [t[0]] + t[1..][..|w| - 1];
      }
    } else if |t| >= |OutputExtension| && t[..|OutputExtension|] == OutputExtension && |w| > 0 {
      assert IndexPath(t)[0] == '.';
    }
  }

  /** Prefixing a string with characters other than `t[0]` creates no occurrence of `t`. */
  lemma {:induction false} NoLeadThen(w: string, u: string, t: string)
    requires |t| > 0
    requires forall k :: 0 <= k < |w| ==> w[k] != t[0]
    requires !Contains(u, t)
    ensures !Contains(w + u, t)
  {
    if w == [] {
      assert w + u == u;
    } else {
      assert |t| <= |w + u| ==> (w + u)[..|t|][0] == w[0];
      assert (w + u)[1..] == w[1..] + u;
      NoLeadThen(w[1..], u, t);
    }
  }

  /** The rewrite is complete: no ".output" is left in an index path. */
  lemma {:induction false} IndexPathRewritesAll(s: string)
    ensures !Contains(IndexPath(s), OutputExtension)
    decreases |s|
  {
    if |s| < |OutputExtension| {
      ShorterNotContains(s, OutputExtension);
    } else if s[..|OutputExtension|] == OutputExtension {
      var u := IndexPath(s[|OutputExtension|..]);
      IndexPathRewritesAll(s[|OutputExtension|..]);
      assert IndexPath(s) == IndexExtension + u;
      NoLeadThen("index", u, OutputExtension);
      assert (IndexExtension + u)[1..] == "index" + u;
      assert |OutputExtension| <= |IndexExtension + u| ==> (IndexExtension + u)[..|OutputExtension|][1] == 'i';
    } else {
      var u := IndexPath(s[1..]);
      IndexPathRewritesAll(s[1..]);
      assert IndexPath(s) == [s[0]] + u;
      IndexPathPrefix(s[1..], "output");
      assert |OutputExtension| <= |[s[0]] + u| ==> ([s[0]] + u)[..|OutputExtension|] == [s[0]] + u[..6];
      assert s[..|OutputExtension|] == [s[0]] + s[1..][..6];
      assert ([s[0]] + u)[1..] == u;
    }
  }

  /**
    A path without ".output" is its own index path: `Text.ReplaceAbsent`
    applied to the two extensions.
   */
  lemma IndexPathUnchanged(p: string)
    requires !Contains(p, OutputExtension)
    ensures IndexPath(p) == p
  {
    ReplaceAbsent(p, OutputExtension, IndexExtension);
  }

  /**
    The index path derived from the output location coincides with the
    output location unless the root itself contains ".output": neither a
    separator nor a hexadecimal digit can complete an occurrence.
   */
  lemma IndexPathOfOutputPath(root: string, hash: seq<byte>)
    requires !Contains(root, OutputExtension)
    ensures IndexPath(OutputPath(root, hash)) == OutputPath(root, hash)
  {
    OutputPathShape(root, hash);
    if |hash| > 0 {
      var sep := SeparatorAfter(root);
      var tail := sep + HexOf(hash);
      TailForeign(sep, HexOf(hash), hash);
      ContainsAppendForeign(root, tail, OutputExtension);
      assert OutputPath(root, hash) == root + tail;
    }
    IndexPathUnchanged(OutputPath(root, hash));
  }

  /** Neither the separator nor a hexadecimal digit is a character of ".output". */
  lemma TailForeign(sep: string, hex: string, hash: seq<byte>)
    requires sep == "" || sep == "\\"
    requires hex == HexOf(hash)
    ensures forall k :: 0 <= k < |sep + hex| ==> (sep + hex)[k] !in OutputExtension
  {
    HexOfDigits(hash);
    forall k | 0 <= k < |sep + hex|
      ensures (sep + hex)[k] !in OutputExtension
    {
      if k >= |sep| {
        var c := hex[k - |sep|];
        assert (sep + hex)[k] == c;
        assert IsHexDigit(c);
      }
    }
  }
}
