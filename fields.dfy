/** Comma-separated text, as NMEA 0183 sentences and the tracker's CSV reports lay it
    out: `Split` cuts a text at every separator (n separators give n + 1 fields, empty
    fields included) and `Join` puts fields back together. The two are inverse to each
    other, which is what lets the field-by-field readers and writers elsewhere be stated
    against a list of fields. */
module Fields {

  /** The fields of `s` between the separators `sep`. */
  function Split(s: string, sep: char): (fs: seq<string>)
    ensures |fs| >= 1
  {
    if s == [] then [""]
    else if s[0] == sep then [""] + Split(s[1..], sep)
    else
      var r := Split(s[1..], sep);
      [[s[0]] + r[0]] + r[1..]
  }

  /** The fields written one after another with a separator between each two. */
  function Join(fs: seq<string>, sep: char): string
    requires |fs| >= 1
  {
    if |fs| == 1 then fs[0] else fs[0] + [sep] + Join(fs[1..], sep)
  }

  /** The first field is the text up to the first separator; when there is one, the
      remaining fields are those of the text after it. */
  lemma {:induction false} SplitHead(s: string, sep: char)
    ensures sep !in Split(s, sep)[0]
    ensures var fs := Split(s, sep); var h := fs[0];
            |h| <= |s| && s[..|h|] == h &&
            (|fs| == 1 ==> h == s) &&
            (|fs| > 1 ==> |h| < |s| && s[|h|] == sep && Split(s[|h| + 1..], sep) == fs[1..])
  {
    if s != [] && s[0] != sep {
      var t := s[1..];
      SplitHead(t, sep);
      var r := Split(t, sep);
      var h' := r[0];
      var fs := Split(s, sep);
      assert fs == [[s[0]] + h'] + r[1..];
      assert s == [s[0]] + t;
      assert s[..|h'| + 1] == [s[0]] + t[..|h'|];
      if |r| > 1 {
        assert s[|h'| + 1] == t[|h'|];
        assert t[|h'| + 1..] == s[|h'| + 2..];
      }
    }
  }

  /** A text without a separator before one is the first field of the whole. */
  lemma {:induction false} SplitPrefix(f: string, rest: string, sep: char)
    requires sep !in f
    ensures Split(f + [sep] + rest, sep) == [f] + Split(rest, sep)
  {
    if f == [] {
      assert ([sep] + rest)[1..] == rest;
    } else {
      assert (f + [sep] + rest)[1..] == f[1..] + [sep] + rest;
      SplitPrefix(f[1..], rest, sep);
      assert [f[0]] + f[1..] == f;
    }
  }

  /** A text without a separator is a single field. */
  lemma {:induction false} SplitFree(f: string, sep: char)
    requires sep !in f
    ensures Split(f, sep) == [f]
  {
    if f != [] {
      SplitFree(f[1..], sep);
      assert [f[0]] + f[1..] == f;
    }
  }

  /** Joining fields that hold no separator and splitting again gives the fields back. */
  lemma {:induction false} SplitJoin(fs: seq<string>, sep: char)
    requires |fs| >= 1 && forall i :: 0 <= i < |fs| ==> sep !in fs[i]
    ensures Split(Join(fs, sep), sep) == fs
  {
    if |fs| == 1 {
      SplitFree(fs[0], sep);
    } else {
      SplitJoin(fs[1..], sep);
      SplitPrefix(fs[0], Join(fs[1..], sep), sep);
      assert [fs[0]] + fs[1..] == fs;
    }
  }

  /** Splitting a text and joining the fields gives the text back. */
  lemma {:induction false} JoinSplit(s: string, sep: char)
    ensures Join(Split(s, sep), sep) == s
  {
    if s != [] {
      var r := Split(s[1..], sep);
      JoinSplit(s[1..], sep);
      if s[0] == sep {
        assert ([""] + r)[1..] == r;
      } else {
        var fs := Split(s, sep);
        assert fs[1..] == r[1..];
        if |r| > 1 {
          assert r == [r[0]] + r[1..];
        }
      }
    }
  }

  /** No field of a split text holds the separator. */
  lemma {:induction false} SplitFieldsFree(s: string, sep: char)
    ensures forall i :: 0 <= i < |Split(s, sep)| ==> sep !in Split(s, sep)[i]
  {
    if s != [] {
      SplitFieldsFree(s[1..], sep);
      SplitHead(s, sep);
    }
  }

  /** Where field `k` starts in the joined text: past the fields before it and one
      separator after each. */
  function Offset(fs: seq<string>, k: nat): nat
    requires k <= |fs|
  {
    if k == 0 then 0 else |fs[0]| + 1 + Offset(fs[1..], k - 1)
  }

  /** In the joined text, field `k` stands at its offset, and a separator follows it
      unless it is the last field. */
  lemma {:induction false} JoinLayout(fs: seq<string>, sep: char, k: nat)
    requires k < |fs|
    ensures var s, o := Join(fs, sep), Offset(fs, k);
            o + |fs[k]| <= |s| && s[o..o + |fs[k]|] == fs[k] &&
            (k + 1 < |fs| ==> o + |fs[k]| < |s| && s[o + |fs[k]|] == sep) &&
            (k + 1 == |fs| ==> o + |fs[k]| == |s|)
  {
    if k == 0 {
      if |fs| > 1 {
        assert Join(fs, sep) == fs[0] + ([sep] + Join(fs[1..], sep));
      }
    } else {
      JoinLayout(fs[1..], sep, k - 1);
      var s, t := Join(fs, sep), Join(fs[1..], sep);
      assert s == (fs[0] + [sep]) + t;
      var o, d := Offset(fs, k), |fs[0]| + 1;
      assert o == d + Offset(fs[1..], k - 1);
      assert s[o..o + |fs[k]|] == t[o - d..o - d + |fs[k]|];
    }
  }
}
