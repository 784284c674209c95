/**
 The few pieces of Node's `path` module and of JavaScript number formatting that
 the migration scripts depend on, on POSIX paths: `path.extname`, `path.basename`
 with a suffix, `path.join`, the decimal text of an integer id, and the
 collision rename `<base>_<id><ext>` that both stages build from them.

 The names are treated as single path components. A name containing '/' is accepted,
 but Node's `path.basename` would drop its directory part, which these functions do not.
 */
module NodePath {

  /** A name with no path separator in it. */
  predicate IsPlainName(s: string) {
    forall i :: 0 <= i < |s| ==> s[i] != '/'
  }

  /** Index of the last occurrence of `c` in `s`, or -1 when there is none. */
  function LastIndex(s: string, c: char): (r: int)
    ensures -1 <= r < |s|
    ensures r >= 0 ==> s[r] == c
    ensures forall k :: r < k < |s| ==> s[k] != c
    decreases |s|
  {
    if |s| == 0 then -1
    else if s[|s| - 1] == c then |s| - 1
    else LastIndex(s[..|s| - 1], c)
  }

  /**
   `path.extname` on a plain name: the text from the last '.' to the end, except
   that a dot in first position does not start an extension (".bashrc") and ".."
   has none.
   */
  function ExtName(name: string): (ext: string)
    ensures |ext| <= |name|
  {
    var d := LastIndex(name, '.');
    if d <= 0 || name == ".." then "" else name[d..]
  }

  /**
   The extension is a suffix of the name. It is empty exactly when no '.' follows
   the first character or the name is ".."; otherwise it starts with '.', holds no
   other '.', and leaves a non-empty base in front.
   */
  lemma ExtNameSpec(name: string)
    ensures var ext := ExtName(name);
            && ext == name[|name| - |ext|..]
            && (ext == [] <==> (forall k :: 1 <= k < |name| ==> name[k] != '.') || name == "..")
            && (ext != [] ==>
                  && |ext| < |name| && ext[0] == '.'
                  && forall k :: 1 <= k < |ext| ==> ext[k] != '.')
  {
  }

  /** `path.basename(name, path.extname(name))` on a plain name: the name without its extension. */
  function BaseName(name: string): (base: string)
    ensures base + ExtName(name) == name
  {
    ExtNameSpec(name);
    name[..|name| - |ExtName(name)|]
  }

  /**
   A step-by-step transcription of Node's POSIX `extname` scan (right to left,
   tracking the first dot met and what precedes it), on a plain name, where
   the scan never meets a separator and the path component starts at 0.
   */
  method NodeExtName(path: string) returns (ext: string)
    requires IsPlainName(path)
    ensures ext == ExtName(path)
  {
    var startDot := -1;
    var end := -1;
    var preDotState := 0;
    ghost var last := LastIndex(path, '.');
    var i := |path| - 1;
    while i >= 0
      invariant -1 <= i <= |path| - 1
      invariant end == (if i == |path| - 1 then -1 else |path|)
      invariant startDot == (if last > i then last else -1)
      invariant preDotState ==
                  (if startDot == -1 || startDot == i + 1 then 0
                   else if path[i + 1] == '.' then 1 else -1)
      decreases i
    {
      if end == -1 {
        end := i + 1;
      }
      if path[i] == '.' {
        if startDot == -1 {
          startDot := i;
        } else if preDotState != 1 {
          preDotState := 1;
        }
      } else if startDot != -1 {
        preDotState := -1;
      }
      i := i - 1;
    }
    if startDot == -1 || end == -1 || preDotState == 0
       || (preDotState == 1 && startDot == end - 1 && startDot == 1) {
      ext := "";
    } else {
      ext := path[startDot..end];
    }
    if path == ".." {
      assert last == 1;
    }
  }

  /** The character of decimal digit `d`. */
  function DigitChar(d: nat): (c: char)
    requires d < 10
    ensures '0' <= c <= '9'
  {
    (48 + d) as char
  }

  /** The value of a decimal digit character. */
  function DigitValue(c: char): (d: nat)
    requires '0' <= c <= '9'
    ensures d < 10 && DigitChar(d) == c
  {
    (c as int) - 48
  }

  predicate IsDigits(s: string) {
    forall i :: 0 <= i < |s| ==> '0' <= s[i] <= '9'
  }

  /** JavaScript's decimal text of a non-negative integer: no sign, no leading zeros. */
  function NatToString(n: nat): (s: string)
    ensures |s| >= 1 && IsDigits(s)
    ensures |s| > 1 ==> s[0] != '0'
    decreases n
  {
    if n < 10 then [DigitChar(n)] else NatToString(n / 10) + [DigitChar(n % 10)]
  }

  /** The value of a non-empty decimal digit string. */
  function ParseDigits(s: string): (n: nat)
    requires |s| >= 1 && IsDigits(s)
    decreases |s|
  {
    if |s| == 1 then DigitValue(s[0])
    else 10 * ParseDigits(s[..|s| - 1]) + DigitValue(s[|s| - 1])
  }

  lemma {:induction false} ParseNatToString(n: nat)
    ensures ParseDigits(NatToString(n)) == n
    decreases n
  {
    if n >= 10 {
      var s := NatToString(n);
      assert s[..|s| - 1] == NatToString(n / 10);
      ParseNatToString(n / 10);
    }
  }

  /** The text `${id}` gives for an integer id: an optional '-' followed by decimal digits. */
  function IntToString(i: int): (s: string)
    ensures |s| >= 1
    ensures i < 0 <==> s[0] == '-'
    ensures i >= 0 ==> IsDigits(s)
    ensures i < 0 ==> IsDigits(s[1..])
  {
    if i < 0 then "-" + NatToString(-i) else NatToString(i)
  }

  /** Distinct non-negative ids have distinct decimal texts. */
  lemma NatToStringInjective(a: nat, b: nat)
    requires NatToString(a) == NatToString(b)
    ensures a == b
  {
    ParseNatToString(a);
    ParseNatToString(b);
  }

  /** Distinct ids have distinct decimal texts. */
  lemma IntToStringInjective(a: int, b: int)
    requires IntToString(a) == IntToString(b)
    ensures a == b
  {
    if a < 0 {
      assert IntToString(a)[1..] == NatToString(-a);
      assert IntToString(b)[1..] == NatToString(-b);
      NatToStringInjective(-a, -b);
    } else {
      NatToStringInjective(a, b);
    }
  }

  /**
   The collision name both stages build: `${path.basename(name, ext)}_${id}${ext}`
   with `ext = path.extname(name)`.
   */
  function Rename(name: string, id: int): string {
    BaseName(name) + "_" + IntToString(id) + ExtName(name)
  }

  /**
   The rename keeps the name's base in front and its extension at the end and puts
   `_<id>` between them, so it is never the name itself.
   */
  lemma RenameShape(name: string, id: int)
    ensures var r := Rename(name, id);
            && |r| == |name| + 1 + |IntToString(id)|
            && r[..|BaseName(name)|] == BaseName(name)
            && r[|BaseName(name)|] == '_'
            && r[|BaseName(name)| + 1..|r| - |ExtName(name)|] == IntToString(id)
            && r[|r| - |ExtName(name)|..] == ExtName(name)
            && r != name
  {
    var b, t, e := BaseName(name), IntToString(id), ExtName(name);
    var r := Rename(name, id);
    assert r == b + ("_" + t) + e;
    assert r[..|b|] == b;
    assert r[|b| + 1..|r| - |e|] == t;
    assert r[|r| - |e|..] == e;
  }

  /** Two files with the same name but different ids never get the same rename. */
  lemma RenameInjective(name: string, a: int, b: int)
    requires Rename(name, a) == Rename(name, b)
    ensures a == b
  {
    RenameShape(name, a);
    RenameShape(name, b);
    IntToStringInjective(a, b);
  }

  /** `lease.pdf` with id 166 is renamed `lease_166.pdf`. */
  lemma LeaseRename()
    ensures Rename("lease.pdf", 166) == "lease_166.pdf"
  {
    LeaseExtName();
    assert NatToString(166) == "166" by {
      assert NatToString(16) == "16";
    }
  }

  lemma LeaseExtName()
    ensures ExtName("lease.pdf") == ".pdf"
    ensures BaseName("lease.pdf") == "lease"
  {
    assert "lease.pdf"[..8] == "lease.pd";
    assert "lease.pd"[..7] == "lease.p";
    assert "lease.p"[..6] == "lease.";
    assert LastIndex("lease.pdf", '.') == 5;
    assert ExtName("lease.pdf") == ".pdf";
    assert "lease.pdf"[..5] == "lease";
  }

  /** Concatenating plain names gives a plain name. */
  lemma PlainConcat(a: string, b: string)
    requires IsPlainName(a) && IsPlainName(b)
    ensures IsPlainName(a + b)
  {
    forall k | 0 <= k < |a + b|
      ensures (a + b)[k] != '/'
    {
      if k >= |a| {
        assert (a + b)[k] == b[k - |a|];
      }
    }
  }

  /** A rename of a plain name is again a plain name. */
  lemma RenamePlain(name: string, id: int)
    requires IsPlainName(name)
    ensures IsPlainName(Rename(name, id))
  {
    var b, t, e := BaseName(name), IntToString(id), ExtName(name);
    assert IsPlainName(b) by {
      assert forall k :: 0 <= k < |b| ==> b[k] == name[k];
    }
    assert IsPlainName(e) by {
      assert forall k :: 0 <= k < |e| ==> e[k] == name[|name| - |e| + k];
    }
    assert IsPlainName(t) by {
      if id < 0 {
        assert forall k :: 1 <= k < |t| ==> t[k] == t[1..][k - 1];
      }
    }
    PlainConcat(b, "_");
    PlainConcat(b + "_", t);
    PlainConcat(b + "_" + t, e);
  }

  /**
   `path.join` over plain segments: the non-empty segments joined by '/'.
   Node answers "." when every segment is empty, which no caller here reaches
   (the first segment is always a fixed directory name); normalisation of "."
   and ".." segments is not modelled.
   */
  function Join(segments: seq<string>): (p: string)
    ensures p == [] <==> forall i :: 0 <= i < |segments| ==> segments[i] == []
    decreases |segments|
  {
    if segments == [] then ""
    else
      var rest := Join(segments[..|segments| - 1]);
      var last := segments[|segments| - 1];
      if last == [] then rest
      else if rest == [] then last
      else rest + "/" + last
  }
}
