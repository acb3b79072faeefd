/** Pure naming helpers of the upload service: the MIME allow-list check,
    the stored file name `<millis>_<originalname>`, the public URL under
    `http://localhost:5000/uploads/`, and the recovery of a file name from
    a URL by `url.split('/').pop()`. */
module Naming {

  /** The MIME types the upload filter lets through, in the source's order. */
  const AllowedTypes: seq<string> := ["image/jpeg", "image/png", "image/webp"]

  /** `list.includes(x)` on an array of strings. */
  function Includes(list: seq<string>, x: string): (b: bool)
    ensures b <==> x in list
    decreases |list|
  {
    if list == [] then false
    else list[0] == x || Includes(list[1..], x)
  }

  /** The allow-list test of the upload filter. */
  function MimeAllowed(mime: string): (b: bool)
    ensures b <==> mime == "image/jpeg" || mime == "image/png" || mime == "image/webp"
  {
    Includes(AllowedTypes, mime)
  }

  // ---------------------------------------------------------------------
  // Decimal rendering of the millisecond timestamp

  predicate IsDigit(c: char) {
    '0' <= c <= '9'
  }

  predicate AllDigits(s: string) {
    forall i :: 0 <= i < |s| ==> IsDigit(s[i])
  }

  function DigitChar(d: nat): (c: char)
    requires d < 10
    ensures IsDigit(c) && c as int - '0' as int == d
  {
    ('0' as int + d) as char
  }

  /** The decimal text JavaScript produces for a non-negative integer
      number: no sign, no leading zeros. */
  function Decimal(n: nat): (s: string)
    ensures |s| >= 1 && AllDigits(s)
    ensures s[0] == '0' ==> n == 0
    decreases n
  {
    if n < 10 then [DigitChar(n)]
    else Decimal(n / 10) + [DigitChar(n % 10)]
  }

  /** Reads a string of digits back as a number; the inverse of Decimal. */
  function ParseDecimal(s: string): nat
    requires AllDigits(s)
    decreases |s|
  {
    if s == [] then 0
    else ParseDecimal(s[..|s| - 1]) * 10 + (s[|s| - 1] as int - '0' as int)
  }

  lemma {:induction false} DecimalRoundTrip(n: nat)
    ensures ParseDecimal(Decimal(n)) == n
    decreases n
  {
    var s := Decimal(n);
    if n < 10 {
      assert s[..|s| - 1] == [];
    } else {
      assert s[..|s| - 1] == Decimal(n / 10);
      DecimalRoundTrip(n / 10);
    }
  }

  lemma DecimalInjective(m: nat, n: nat)
    requires Decimal(m) == Decimal(n)
    ensures m == n
  {
    DecimalRoundTrip(m);
    DecimalRoundTrip(n);
  }

  // ---------------------------------------------------------------------
  // Stored file name and public URL

  /** The name the disk storage gives an upload: `Date.now() + '_' + originalname`.
      The original name is not sanitised. */
  function StoredName(now: nat, originalName: string): (name: string)
    ensures '/' in name <==> '/' in originalName
    ensures |name| > |originalName| && name[|name| - |originalName|..] == originalName
  {
    var d := Decimal(now);
    assert '/' !in d by {
      forall i | 0 <= i < |d| ensures d[i] != '/' {
        assert IsDigit(d[i]);
      }
    }
    d + "_" + originalName
  }

  /** Position of the first `sep` in `s`. */
  function FirstIndex(s: string, sep: char): (k: nat)
    requires sep in s
    ensures k < |s| && s[k] == sep && sep !in s[..k]
    decreases |s|
  {
    if s[0] == sep then 0
    else
      assert sep in s[1..] by {
        var j :| 0 <= j < |s| && s[j] == sep;
        assert s[1..][j - 1] == sep;
      }
      var k := 1 + FirstIndex(s[1..], sep);
      assert s[..k] == [s[0]] + s[1..][..k - 1];
      k
  }

  lemma {:induction false} FirstIndexAfterPrefix(a: string, b: string, sep: char)
    requires sep !in a
    ensures sep in a + [sep] + b && FirstIndex(a + [sep] + b, sep) == |a|
    decreases |a|
  {
    var s := a + [sep] + b;
    assert s[|a|] == sep;
    if a != [] {
      assert s[1..] == a[1..] + [sep] + b;
      FirstIndexAfterPrefix(a[1..], b, sep);
    }
  }

  /** Two uploads get the same stored name only when both the timestamp and
      the original name agree: a collision needs the same file name within
      the same millisecond. */
  lemma StoredNameInjective(t1: nat, o1: string, t2: nat, o2: string)
    requires StoredName(t1, o1) == StoredName(t2, o2)
    ensures t1 == t2 && o1 == o2
  {
    var d1, d2 := Decimal(t1), Decimal(t2);
    assert '_' !in d1 by {
      forall i | 0 <= i < |d1| ensures d1[i] != '_' { assert IsDigit(d1[i]); }
    }
    assert '_' !in d2 by {
      forall i | 0 <= i < |d2| ensures d2[i] != '_' { assert IsDigit(d2[i]); }
    }
    var s := StoredName(t1, o1);
    assert s == d1 + ['_'] + o1 == d2 + ['_'] + o2;
    FirstIndexAfterPrefix(d1, o1, '_');
    FirstIndexAfterPrefix(d2, o2, '_');
    assert |d1| == |d2|;
    assert d1 == s[..|d1|] == d2;
    assert o1 == s[|d1| + 1..] == o2;
    DecimalInjective(t1, t2);
  }

  /** The URL prefix `http://localhost:${port}/uploads/`, with the port 5000
      written out. */
  const UploadsUrl: string := "http://localhost:5000/uploads/"

  /** The prefix is some text followed by a `/`. */
  lemma UploadsUrlEndsWithSlash()
    ensures |UploadsUrl| >= 1 && UploadsUrl == UploadsUrl[..|UploadsUrl| - 1] + ['/']
  {
    assert UploadsUrl[|UploadsUrl| - 1] == '/';
  }

  /** The public URL of a stored file. */
  function FileUrl(name: string): (url: string)
    ensures |url| > |name| && url[|url| - |name|..] == name && url[|url| - |name| - 1] == '/'
  {
    UploadsUrl + name
  }

  // ---------------------------------------------------------------------
  // `url.split('/').pop()`

  /** Joins the parts with the separator between them; the inverse of Split. */
  function Join(parts: seq<string>, sep: char): string
    requires |parts| >= 1
    decreases |parts|
  {
    if |parts| == 1 then parts[0]
    else parts[0] + [sep] + Join(parts[1..], sep)
  }

  /** `s.split(sep)` for a one-character separator: never empty, no part
      holds the separator, and joining the parts gives `s` back. */
  function Split(s: string, sep: char): (parts: seq<string>)
    ensures |parts| >= 1
    ensures forall i :: 0 <= i < |parts| ==> sep !in parts[i]
    ensures Join(parts, sep) == s
    decreases |s|
  {
    if s == [] then [[]]
    else
      var rest := Split(s[1..], sep);
      if s[0] == sep then
        var parts := [[]] + rest;
        assert parts[1..] == rest;
        assert s == [sep] + s[1..];
        parts
      else
        var parts := [[s[0]] + rest[0]] + rest[1..];
        assert s == [s[0]] + s[1..];
        assert |rest| > 1 ==> parts[1..] == rest[1..];
        parts
  }

  function Last(parts: seq<string>): string
    requires |parts| >= 1
  {
    parts[|parts| - 1]
  }

  /** The file name the delete handlers recover from a stored URL. */
  function FileNameOf(url: string): (name: string)
    ensures '/' !in name
  {
    Last(Split(url, '/'))
  }

  lemma {:induction false} SplitWithoutSeparator(s: string, sep: char)
    requires sep !in s
    ensures Split(s, sep) == [s]
    decreases |s|
  {
    if s != [] {
      assert sep !in s[1..];
      SplitWithoutSeparator(s[1..], sep);
      assert [s[0]] + s[1..] == s;
    }
  }

  lemma {:induction false} SplitLastAfterSeparator(p: string, q: string, sep: char)
    ensures Last(Split(p + [sep] + q, sep)) == Last(Split(q, sep))
    decreases |p|
  {
    var s := p + [sep] + q;
    if p == [] {
      assert s == [sep] + q && s[1..] == q;
    } else {
      assert s[1..] == p[1..] + [sep] + q;
      SplitLastAfterSeparator(p[1..], q, sep);
      var rest := Split(s[1..], sep);
      assert s[0] == p[0];
      if p[0] == sep {
        assert Split(s, sep) == [[]] + rest;
      } else {
        assert |rest| >= 2 by {
          assert s[1..][|p| - 1] == sep;
          assert sep in Join(rest, sep);
        }
        assert Split(s, sep) == [[s[0]] + rest[0]] + rest[1..];
      }
    }
  }

  /** Only the text after any one separator decides the last part. */
  lemma SplitLastAt(s: string, i: nat, sep: char)
    requires i < |s| && s[i] == sep
    ensures Last(Split(s, sep)) == Last(Split(s[i + 1..], sep))
  {
    assert s == s[..i] + [sep] + s[i + 1..];
    SplitLastAfterSeparator(s[..i], s[i + 1..], sep);
  }

  /** The last `/`-segment of a generated URL is the stored name exactly when
      that name holds no `/`. */
  lemma UrlNameRoundTrip(name: string)
    ensures FileNameOf(FileUrl(name)) == name <==> '/' !in name
  {
    UploadsUrlEndsWithSlash();
    var p := UploadsUrl[..|UploadsUrl| - 1];
    assert FileUrl(name) == p + ['/'] + name;
    SplitLastAfterSeparator(p, name, '/');
    if '/' !in name {
      SplitWithoutSeparator(name, '/');
    }
  }

  /** For an upload, the delete handlers recover the stored name exactly
      when the original file name holds no `/`. */
  lemma StoredUrlRoundTrip(now: nat, originalName: string)
    ensures FileNameOf(FileUrl(StoredName(now, originalName))) == StoredName(now, originalName)
            <==> '/' !in originalName
  {
    UrlNameRoundTrip(StoredName(now, originalName));
  }

  /** When `o` ends `s` and holds a separator, `s` and `o` have the same
      last part. */
  lemma LastPartOfSuffix(s: string, o: string, sep: char)
    requires |o| <= |s| && s[|s| - |o|..] == o && sep in o
    ensures Last(Split(s, sep)) == Last(Split(o, sep))
  {
    var k :| 0 <= k < |o| && o[k] == sep;
    var n := |s| - |o|;
    assert s[n + k] == sep by {
      assert s[n..][k] == sep;
    }
    SplitLastAt(s, n + k, sep);
    assert s[n + k + 1..] == o[k + 1..];
    SplitLastAt(o, k, sep);
  }

  /** When the original name holds a `/`, delete unlinks the part of the
      original name after its last `/`, which is never the stored name. */
  lemma SlashNameUnlinksTail(now: nat, originalName: string)
    requires '/' in originalName
    ensures FileNameOf(FileUrl(StoredName(now, originalName))) == FileNameOf(originalName)
    ensures FileNameOf(FileUrl(StoredName(now, originalName))) != StoredName(now, originalName)
  {
    var name := StoredName(now, originalName);
    var url := FileUrl(name);
    assert url[|url| - |originalName|..] == originalName by {
      assert url[|url| - |originalName|..] == url[|url| - |name|..][|name| - |originalName|..];
    }
    LastPartOfSuffix(url, originalName, '/');
  }
}
