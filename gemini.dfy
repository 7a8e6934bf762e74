/** `gemini_init` of `gemini.c`: the API key is copied with its leading
    spaces skipped and its trailing spaces, line feeds and carriage returns
    overwritten with NULs, and the copy replaces the stored key. */
module Gemini {
  import opened Esp

  /** The number of `' '` characters the first loop steps over. */
  function LeadingSpaces(s: seq<char>): (n: nat)
    ensures n <= |s|
    ensures forall j :: 0 <= j < n ==> s[j] == ' '
    ensures n < |s| ==> s[n] != ' '
  {
    if s == [] || s[0] != ' ' then 0 else 1 + LeadingSpaces(s[1..])
  }

  /** The characters the second loop overwrites. */
  predicate IsTrailingJunk(c: char)
  {
    c == ' ' || c == '\n' || c == '\r'
  }

  /** How much of the copy `t` survives the second loop, which stops at the
      first character of the copy. */
  function KeptLength(t: seq<char>): (n: nat)
    ensures n <= |t|
    ensures t != [] ==> n >= 1
    ensures forall j :: n <= j < |t| ==> IsTrailingJunk(t[j])
    ensures n <= 1 || !IsTrailingJunk(t[n - 1])
    decreases |t|
  {
    if |t| <= 1 then |t|
    else if IsTrailingJunk(t[|t| - 1]) then KeptLength(t[..|t| - 1])
    else |t|
  }

  /** The key `gemini_init` stores for `key`. */
  function Trimmed(s: seq<char>): seq<char>
  {
    var t := s[LeadingSpaces(s)..];
    t[..KeptLength(t)]
  }

  /** The stored key is the contiguous piece of the input that starts after
      the leading spaces; what precedes it is spaces and what follows it is
      spaces, line feeds and carriage returns. */
  lemma TrimmedSlice(s: seq<char>)
    ensures LeadingSpaces(s) + |Trimmed(s)| <= |s|
    ensures Trimmed(s) == s[LeadingSpaces(s)..LeadingSpaces(s) + |Trimmed(s)|]
    ensures forall j :: 0 <= j < LeadingSpaces(s) ==> s[j] == ' '
    ensures forall j :: LeadingSpaces(s) + |Trimmed(s)| <= j < |s| ==> IsTrailingJunk(s[j])
  {
    var l := LeadingSpaces(s);
    var t := s[l..];
    var m := KeptLength(t);
    assert Trimmed(s) == t[..m] == s[l..l + m];
    forall j | l + m <= j < |s|
      ensures IsTrailingJunk(s[j])
    {
      assert s[j] == t[j - l];
    }
  }

  /** The stored key neither starts with a space nor ends in a space, line
      feed or carriage return (unless it is one character long), and it is
      empty exactly when the input is all spaces. */
  lemma TrimmedEnds(s: seq<char>)
    ensures Trimmed(s) != [] ==> Trimmed(s)[0] != ' '
    ensures |Trimmed(s)| <= 1 || !IsTrailingJunk(Trimmed(s)[|Trimmed(s)| - 1])
    ensures Trimmed(s) == [] <==> forall j :: 0 <= j < |s| ==> s[j] == ' '
  {
    var l := LeadingSpaces(s);
    var t := s[l..];
    var m := KeptLength(t);
    var r := Trimmed(s);
    assert r == t[..m] && |r| == m;
    if m > 1 {
      assert !IsTrailingJunk(t[m - 1]) && r[m - 1] == t[m - 1];
    }
    if r == [] {
      assert t == [];
      assert l == |s|;
    } else {
      assert r[0] == s[l];
    }
  }

  /** A leading tab, line feed or carriage return is not skipped. */
  lemma LeadingControlKept(s: seq<char>)
    requires s != [] && (s[0] == '\t' || s[0] == '\n' || s[0] == '\r')
    ensures Trimmed(s) != [] && Trimmed(s)[0] == s[0]
  {
    assert LeadingSpaces(s) == 0;
  }

  /** A key made only of trailing junk after at least one leading space
      keeps its first character: `" \n \r"` is stored as `"\n"`. */
  lemma LoneNewlineSurvives()
    ensures Trimmed(" \n \r") == "\n"
    ensures Trimmed("   ") == ""
  {
    assert LeadingSpaces(" \n \r") == 1 by {
      assert " \n \r"[1..] == "\n \r";
    }
    assert " \n \r"[1..] == "\n \r";
    assert KeptLength("\n \r") == 1 by {
      assert "\n \r"[..2] == "\n ";
      assert "\n "[..1] == "\n";
    }
    assert LeadingSpaces("   ") == 3 by {
      assert "   "[1..] == "  ";
      assert "  "[1..] == " ";
      assert " "[1..] == "";
    }
  }

  /** Storing an already stored key stores it unchanged. */
  lemma TrimmedIdempotent(s: seq<char>)
    ensures Trimmed(Trimmed(s)) == Trimmed(s)
  {
    var r := Trimmed(s);
    TrimmedSlice(s);
    TrimmedEnds(s);
    assert LeadingSpaces(r) == 0;
    assert r[0..] == r;
    assert KeptLength(r) == |r|;
    assert r[..|r|] == r;
  }

  /** `g_api_key`. */
  class GeminiClient {
    /** The stored key as a NUL-terminated heap copy, NULL before the first init. */
    var apiKey: array?<char>

    constructor ()
      ensures apiKey == null
    {
      apiKey := null;
    }

    /** Lines 14-29: frees any previous key and stores a fresh trimmed copy
        of the C string `key`; always ESP_OK. */
    method Init(key: seq<char>) returns (ret: EspErr)
      requires '\0' !in key
      modifies this
      ensures ret == EspOk
      ensures apiKey != null && fresh(apiKey)
      ensures CString(apiKey[..]) == Trimmed(key)
      ensures apiKey.Length == |key| - LeadingSpaces(key) + 1
      ensures forall j :: |Trimmed(key)| <= j < apiKey.Length ==> apiKey[j] == '\0'
    {
      var start := SkipSpaces(key);
      var trimmed := Strdup(key[start..]);
      var kept := StripTrailing(trimmed, |key| - start);
      StoredKey(key, trimmed[..], kept);
      apiKey := trimmed;
      ret := EspOk;
    }
  }

  /** What the second loop leaves in the copy is the C string of the
      trimmed key, followed by NULs only. */
  lemma StoredKey(key: seq<char>, a: seq<char>, kept: nat)
    requires '\0' !in key
    requires |a| == |key| - LeadingSpaces(key) + 1
    requires kept == KeptLength(key[LeadingSpaces(key)..])
    requires a[..kept] == key[LeadingSpaces(key)..][..kept]
    requires forall j :: kept <= j < |a| ==> a[j] == '\0'
    ensures CString(a) == Trimmed(key) && kept == |Trimmed(key)|
  {
    var t := key[LeadingSpaces(key)..];
    assert t[..kept] == key[LeadingSpaces(key)..LeadingSpaces(key) + kept];
    CStringOfPadded(a, kept);
  }

  /** Line 20: `strdup` of the rest of the key, NUL-terminated. */
  method Strdup(t: seq<char>) returns (a: array<char>)
    ensures fresh(a) && a[..] == t + ['\0']
  {
    a := new char[|t| + 1](i requires 0 <= i <= |t| => if i < |t| then t[i] else '\0');
    assert a[..] == t + ['\0'];
  }

  /** Line 19: the pointer walk over leading spaces. */
  method SkipSpaces(key: seq<char>) returns (start: nat)
    ensures start == LeadingSpaces(key)
  {
    start := 0;
    while start < |key| && key[start] == ' '
      invariant 0 <= start <= |key|
      invariant LeadingSpaces(key) == start + LeadingSpaces(key[start..])
    {
      assert key[start..][1..] == key[start + 1..];
      start := start + 1;
    }
  }

  /** Lines 21-25: NULs written backwards over trailing junk of the copy
      `buf[..len]`, stopping at its first character; returns the length kept. */
  method StripTrailing(buf: array<char>, len: nat) returns (kept: nat)
    requires len < buf.Length && buf[len] == '\0'
    modifies buf
    ensures kept == KeptLength(old(buf[..len]))
    ensures buf[..kept] == old(buf[..kept])
    ensures forall j :: kept <= j <= len ==> buf[j] == '\0'
    ensures buf[len + 1..] == old(buf[len + 1..])
  {
    ghost var t := buf[..len];
    var end: int := len - 1;
    while end > 0 && IsTrailingJunk(buf[end])
      invariant -1 <= end < len
      invariant buf[..end + 1] == t[..end + 1]
      invariant forall j :: end < j <= len ==> buf[j] == '\0'
      invariant buf[len + 1..] == old(buf[len + 1..])
      invariant KeptLength(t) == KeptLength(t[..end + 1])
    {
      assert t[..end + 1][..end] == t[..end];
      buf[end] := '\0';
      end := end - 1;
    }
    ghost var u := buf[..end + 1];
    assert end > 0 ==> u[end] == buf[end];
    KeptWhole(u);
    kept := end + 1;
  }

  /** The second loop keeps all of a copy that does not end in junk. */
  lemma KeptWhole(u: seq<char>)
    requires |u| <= 1 || !IsTrailingJunk(u[|u| - 1])
    ensures KeptLength(u) == |u|
  {
  }
}
