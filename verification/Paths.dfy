/** Path normalisation, and why the string tests of the vault code are tests on
    path components. */
module Paths {
  import opened Base

  const MAX_PATH_DEPTH: nat := 64
  const MAX_PATH_LEN: nat := 4096

  /** A normalised path, as its components. */
  type Path = seq<string>

  // ----- splitting and joining -----

  function Split(s: string): (cs: Path)
    ensures cs != []
  {
    if s == "" then [""] else Prepend(s[0], Split(s[1..]))
  }

  function Prepend(c: char, r: Path): (cs: Path)
    requires r != []
    ensures cs != []
  {
    if c == '/' then [""] + r else [[c] + r[0]] + r[1..]
  }

  lemma PrependConcat(c: char, r: Path, t: Path)
    requires r != []
    ensures Prepend(c, r + t) == Prepend(c, r) + t
  {
    assert (r + t)[1..] == r[1..] + t;
  }

  function Join(cs: Path): string
  {
    if cs == [] then "" else if |cs| == 1 then cs[0] else cs[0] + "/" + Join(cs[1..])
  }

  predicate SlashFree(cs: Path) { forall c :: c in cs ==> '/' !in c }

  lemma {:induction false} SplitSlashFree(s: string)
    ensures SlashFree(Split(s))
  {
    if s != "" {
      SplitSlashFree(s[1..]);
    }
  }

  lemma {:induction false} JoinSplit(s: string)
    ensures Join(Split(s)) == s
  {
    if s != "" {
      var r := Split(s[1..]);
      JoinSplit(s[1..]);
      if s[0] == '/' {
        assert Split(s)[1..] == r;
        assert Join(Split(s)) == "" + "/" + Join(r);
      } else {
        assert Split(s)[1..] == r[1..];
      }
    }
  }

  /** A separator splits exactly where it stands. */
  lemma {:induction false} SplitConcat(a: string, b: string)
    ensures Split(a + "/" + b) == Split(a) + Split(b)
    decreases |a|
  {
    var s := a + "/" + b;
    if a == "" {
      assert s[1..] == b;
    } else {
      assert s[1..] == a[1..] + "/" + b && s[0] == a[0];
      SplitConcat(a[1..], b);
      PrependConcat(a[0], Split(a[1..]), Split(b));
    }
  }

  lemma {:induction false} SplitOne(c: string)
    requires '/' !in c
    ensures Split(c) == [c]
  {
    if c != "" {
      SplitOne(c[1..]);
      assert [c[0]] + c[1..] == c;
    }
  }

  lemma {:induction false} SplitJoin(cs: Path)
    requires cs != [] && SlashFree(cs)
    ensures Split(Join(cs)) == cs
  {
    SplitOne(cs[0]);
    if |cs| > 1 {
      SplitJoin(cs[1..]);
      SplitConcat(cs[0], Join(cs[1..]));
      assert [cs[0]] + cs[1..] == cs;
    } else {
      assert cs == [cs[0]];
    }
  }

  lemma {:induction false} JoinConcat(a: Path, b: Path)
    requires a != [] && b != []
    ensures Join(a + b) == Join(a) + "/" + Join(b)
  {
    if |a| == 1 {
      assert (a + b)[1..] == b;
    } else {
      assert (a + b)[1..] == a[1..] + b;
      JoinConcat(a[1..], b);
    }
  }

  // ----- the subtree relation -----

  /** `q` is `p` or lies beneath it. */
  predicate Under(p: Path, q: Path) { p <= q }

  /** `path == norm || path.starts_with(norm + "/")`. */
  predicate StringUnder(p: string, q: string) { q == p || p + "/" <= q }

  /** The string test used by remove, rename and the edit matchers is the
      component-wise one, for all strings. */
  lemma SubtreeTest(p: string, q: string)
    ensures StringUnder(p, q) <==> Under(Split(p), Split(q))
  {
    if p + "/" <= q {
      var rest := q[|p| + 1..];
      assert q == p + "/" + rest;
      SplitConcat(p, rest);
    }
    if Under(Split(p), Split(q)) {
      JoinSplit(p);
      JoinSplit(q);
      var rest := Split(q)[|Split(p)|..];
      assert Split(q) == Split(p) + rest;
      if rest != [] {
        JoinConcat(Split(p), rest);
      } else {
        assert Split(p) + rest == Split(p);
      }
    }
  }

  /** Moving `q` from `from` to `to` by rewriting its prefix as a string is
      rewriting its leading components. */
  lemma RenameRewrite(from: string, to: string, q: string)
    requires StringUnder(from, q)
    ensures Under(Split(from), Split(q))
    ensures Split(if q == from then to else to + "/" + q[|from| + 1..]) ==
            Split(to) + Split(q)[|Split(from)|..]
  {
    SubtreeTest(from, q);
    if q != from {
      var rest := q[|from| + 1..];
      assert q == from + "/" + rest;
      SplitConcat(from, rest);
      SplitConcat(to, rest);
      assert Split(q)[|Split(from)|..] == Split(rest);
    } else {
      assert Split(q)[|Split(from)|..] == [];
    }
  }

  // ----- the rules -----

  function Utf8Len(c: char): nat
  {
    if c as int < 0x80 then 1 else if c as int < 0x800 then 2 else if c as int < 0x1_0000 then 3 else 4
  }

  /** `str::len`: the length of the UTF-8 encoding. */
  function ByteLen(s: string): nat
  {
    if s == "" then 0 else Utf8Len(s[0]) + ByteLen(s[1..])
  }

  lemma {:induction false} ByteLenConcat(a: string, b: string)
    ensures ByteLen(a + b) == ByteLen(a) + ByteLen(b)
  {
    if a == "" {
      assert a + b == b;
    } else {
      assert (a + b)[1..] == a[1..] + b;
      ByteLenConcat(a[1..], b);
    }
  }

  function Unify(s: string): (u: string)
    ensures |u| == |s| && forall i :: 0 <= i < |s| ==> u[i] == if s[i] == '\\' then '/' else s[i]
  {
    seq(|s|, i requires 0 <= i < |s| => if s[i] == '\\' then '/' else s[i])
  }

  function UpperChar(c: char): char
  {
    if 'a' <= c <= 'z' then (c as int - 32) as char else c
  }

  function Upper(s: string): string
  {
    seq(|s|, i requires 0 <= i < |s| => UpperChar(s[i]))
  }

  function Stem(c: string): string
  {
    if c == "" || c[0] == '.' then "" else [c[0]] + Stem(c[1..])
  }

  /** Names Windows reserves whatever their extension. */
  predicate DeviceStem(stem: string)
  {
    stem in {"CON", "PRN", "AUX", "NUL"} ||
    (|stem| == 4 && stem[..3] in {"COM", "LPT"} &&
     (('1' <= stem[3] <= '9') || stem[3] in {'\U{B9}', '\U{B2}', '\U{B3}'}))
  }

  /** What one kept component must satisfy. */
  predicate Portable(c: string)
  {
    && (forall i :: 0 <= i < |c| ==>
        c[i] as int >= 0x20 && c[i] as int != 0x7f && c[i] !in {':', '<', '>', '"', '|', '?', '*'})
    && (c != "" ==> c[|c| - 1] !in {'.', ' '})
    && !DeviceStem(Upper(Stem(c)))
  }

  predicate Skipped(c: string) { c == "" || c == "." }

  predicate Rejected(c: string) { c == ".." || (!Skipped(c) && !Portable(c)) }

  /** The components that survive. */
  function Kept(cs: Path): Path
  {
    if cs == [] then [] else (if Skipped(cs[0]) then [] else [cs[0]]) + Kept(cs[1..])
  }

  predicate DrivePrefix(u: string)
  {
    |u| >= 2 && ('a' <= u[0] <= 'z' || 'A' <= u[0] <= 'Z') && u[1] == ':'
  }

  function NormalizeStored(path: string): Result<Path>
  {
    var u := Unify(path);
    if path == "" || ByteLen(path) > MAX_PATH_LEN then Err(Invalid)
    else if u[0] == '/' || DrivePrefix(u) then Err(Invalid)
    else if exists c :: c in Split(u) && Rejected(c) then Err(Invalid)
    else if Kept(Split(u)) == [] || |Kept(Split(u))| > MAX_PATH_DEPTH then Err(Invalid)
    else Ok(Kept(Split(u)))
  }

  predicate SpoofingChar(c: char)
  {
    var x := c as int;
    || x == 0xAD || x == 0x61C || x == 0x180E
    || 0x200B <= x <= 0x200F || 0x202A <= x <= 0x202E || 0x2060 <= x <= 0x2064 || 0x2066 <= x <= 0x206F
    || x == 0xFEFF || 0xFFF9 <= x <= 0xFFFB || x == 0xE0001 || 0xE0020 <= x <= 0xE007F
  }

  /** The strict rule for every path that is created, renamed to or exported. */
  function Normalize(path: string): Result<Path>
  {
    match NormalizeStored(path)
    case Err(e) => Err(e)
    case Ok(p) => if exists c :: c in p && exists x :: x in c && SpoofingChar(x) then Err(Invalid) else Ok(p)
  }

  lemma KeptSnoc(cs: Path, i: nat)
    requires i < |cs|
    ensures Kept(cs[i..]) == (if Skipped(cs[i]) then [] else [cs[i]]) + Kept(cs[i + 1..])
  {
    assert cs[i..][1..] == cs[i + 1..];
  }

  /** One pass over the pieces, pushing what is kept. */
  method KeepComponents(pieces: Path) returns (r: Result<Path>)
    ensures r == if exists c :: c in pieces && Rejected(c) then Err(Invalid) else Ok(Kept(pieces))
  {
    hide Kept, Portable;
    var components: Path := [];
    assert pieces[0..] == pieces;
    for i := 0 to |pieces|
      invariant components + Kept(pieces[i..]) == Kept(pieces)
      invariant forall j :: 0 <= j < i ==> !Rejected(pieces[j])
    {
      var comp := pieces[i];
      KeptSnoc(pieces, i);
      if Skipped(comp) {
        continue;
      }
      if comp == ".." || !Portable(comp) {
        assert Rejected(comp);
        return Err(Invalid);
      }
      components := components + [comp];
    }
    KeptEmpty(pieces[|pieces|..]);
    assert components + [] == components;
    assert forall c :: c in pieces ==> !Rejected(c);
    r := Ok(components);
  }

  lemma KeptEmpty(cs: Path)
    requires cs == []
    ensures Kept(cs) == []
  {
  }

  /** The normaliser as written. */
  method NormalizeStoredPath(path: string) returns (r: Result<string>)
    ensures r == match NormalizeStored(path) case Ok(p) => Ok(Join(p)) case Err(e) => Err(e)
  {
    hide Rejected, Split, ByteLen, Join, Kept;
    if path == "" || ByteLen(path) > MAX_PATH_LEN {
      return Err(Invalid);
    }
    var unified := Unify(path);
    if unified[0] == '/' {
      return Err(Invalid);
    }
    if DrivePrefix(unified) {
      return Err(Invalid);
    }
    var components := KeepComponents(Split(unified));
    if components.Err? {
      return Err(Invalid);
    }
    if components.value == [] || |components.value| > MAX_PATH_DEPTH {
      return Err(Invalid);
    }
    r := Ok(Join(components.value));
  }

  // ----- what normalised paths are -----

  predicate LegalComponent(c: string)
  {
    c != "" && c != "." && c != ".." && '/' !in c && '\\' !in c && Portable(c)
  }

  /** One to 64 legal components within the length limit. */
  predicate Canonical(p: Path)
  {
    1 <= |p| <= MAX_PATH_DEPTH && (forall c :: c in p ==> LegalComponent(c)) && ByteLen(Join(p)) <= MAX_PATH_LEN
  }

  lemma {:induction false} KeptMembers(cs: Path)
    ensures forall c :: c in Kept(cs) <==> c in cs && !Skipped(c)
  {
    if cs != [] {
      KeptMembers(cs[1..]);
      assert cs == [cs[0]] + cs[1..];
    }
  }

  lemma {:induction false} KeptAll(cs: Path)
    requires forall c :: c in cs ==> !Skipped(c)
    ensures Kept(cs) == cs
  {
    if cs != [] {
      KeptAll(cs[1..]);
      assert cs == [cs[0]] + cs[1..];
    }
  }

  /** Dropping pieces never lengthens a path. */
  lemma {:induction false} KeptShorter(cs: Path)
    ensures ByteLen(Join(Kept(cs))) <= ByteLen(Join(cs))
  {
    if |cs| > 1 {
      var rest := Kept(cs[1..]);
      KeptShorter(cs[1..]);
      JoinHead(cs[0], cs[1..]);
      if !Skipped(cs[0]) {
        if rest != [] {
          JoinHead(cs[0], rest);
        } else {
          assert [cs[0]] + rest == [cs[0]];
        }
      } else {
        assert [] + rest == rest;
      }
    } else if |cs| == 1 {
      assert Kept(cs[1..]) == [];
      assert Kept(cs) == [cs[0]] || Kept(cs) == [];
    }
  }

  lemma JoinHead(c: string, rest: Path)
    requires rest != []
    ensures ByteLen(Join([c] + rest)) == ByteLen(c) + 1 + ByteLen(Join(rest))
  {
    assert ([c] + rest)[1..] == rest;
    assert Join([c] + rest) == c + ("/" + Join(rest));
    ByteLenConcat(c, "/" + Join(rest));
    ByteLenConcat("/", Join(rest));
    assert ByteLen("/") == 1;
  }

  lemma {:induction false} ByteLenUnify(s: string)
    ensures ByteLen(Unify(s)) == ByteLen(s)
  {
    if s != "" {
      assert Unify(s)[1..] == Unify(s[1..]);
      ByteLenUnify(s[1..]);
    }
  }

  lemma {:induction false} JoinChars(cs: Path, x: char)
    requires x in Join(cs) && x != '/'
    ensures exists c :: c in cs && x in c
  {
    if |cs| > 1 {
      if x in cs[0] {
      } else {
        JoinChars(cs[1..], x);
      }
    }
  }

  /** Everything the normaliser returns is canonical. */
  lemma NormalizedIsCanonical(path: string)
    requires NormalizeStored(path).Ok?
    ensures Canonical(NormalizeStored(path).value)
  {
    var u := Unify(path);
    var cs := Split(u);
    var p := Kept(cs);
    KeptMembers(cs);
    SplitSlashFree(u);
    forall c | c in p
      ensures '\\' !in c
    {
      if '\\' in c {
        JoinSplit(u);
        MemberChars(cs, c, '\\');
        assert false;
      }
    }
    KeptShorter(cs);
    JoinSplit(u);
    ByteLenUnify(path);
  }

  lemma {:induction false} MemberChars(cs: Path, c: string, x: char)
    requires c in cs && x in c
    ensures x in Join(cs)
  {
    if |cs| > 1 && c != cs[0] {
      MemberChars(cs[1..], c, x);
    }
  }

  predicate LegalPath(p: Path) { p != [] && forall c :: c in p ==> LegalComponent(c) }

  lemma LegalChars(p: Path)
    requires LegalPath(p)
    ensures '\\' !in Join(p) && ':' !in Join(p)
  {
    if '\\' in Join(p) {
      JoinChars(p, '\\');
    }
    if ':' in Join(p) {
      JoinChars(p, ':');
    }
  }

  /** A path of legal components normalises to itself, or breaks a limit. */
  lemma LegalNormalizes(p: Path)
    requires LegalPath(p)
    ensures NormalizeStored(Join(p)) ==
            if |p| <= MAX_PATH_DEPTH && ByteLen(Join(p)) <= MAX_PATH_LEN then Ok(p) else Err(Invalid)
  {
    hide Portable;
    var s := Join(p);
    assert SlashFree(p);
    SplitJoin(p);
    LegalChars(p);
    assert Unify(s) == s;
    assert LegalComponent(p[0]) && p[0] <= s;
    assert s[0] == p[0][0];
    KeptAll(p);
  }

  lemma CanonicalPrefix(p: Path, k: nat)
    requires Canonical(p) && 0 < k <= |p|
    ensures Canonical(p[..k])
  {
    var q := p[..k];
    assert forall c :: c in q ==> c in p;
    hide LegalComponent;
    if k < |p| {
      assert p == q + p[k..];
      JoinConcat(q, p[k..]);
      ByteLenConcat(Join(q) + "/", Join(p[k..]));
      ByteLenConcat(Join(q), "/");
    } else {
      assert q == p;
    }
  }

  /** Normalisation is idempotent and its image is exactly the canonical paths. */
  lemma NormalizationImage(path: string, p: Path)
    ensures NormalizeStored(path) == Ok(p) ==> Canonical(p) && NormalizeStored(Join(p)) == Ok(p)
    ensures Canonical(p) <==> NormalizeStored(Join(p)) == Ok(p)
    ensures Normalize(path) == Ok(p) ==> Normalize(Join(p)) == Ok(p)
  {
    if NormalizeStored(path) == Ok(p) {
      NormalizedIsCanonical(path);
    }
    if NormalizeStored(Join(p)) == Ok(p) {
      NormalizedIsCanonical(Join(p));
    }
    if Canonical(p) {
      LegalNormalizes(p);
    }
  }

  // ----- what a normalised name cannot be -----

  const DEVICES: set<string> :=
    {"CON", "PRN", "AUX", "NUL",
     "COM1", "COM2", "COM3", "COM4", "COM5", "COM6", "COM7", "COM8", "COM9",
     "LPT1", "LPT2", "LPT3", "LPT4", "LPT5", "LPT6", "LPT7", "LPT8", "LPT9"}

  lemma {:induction false} StemIs(c: string, n: nat)
    requires n <= |c| && '.' !in c[..n] && (n == |c| || c[n] == '.')
    ensures Stem(c) == c[..n]
    decreases n
  {
    if n > 0 {
      assert c[1..][..n - 1] == c[..n][1..];
      assert c[0] == c[..n][0];
      StemIs(c[1..], n - 1);
    }
  }

  lemma UpperDots(s: string)
    ensures '.' in s ==> '.' in Upper(s)
  {
    if i :| 0 <= i < |s| && s[i] == '.' {
      assert Upper(s)[i] == '.';
    }
  }

  lemma NoDots(d: string)
    requires d in DEVICES
    ensures '.' !in d
  {
  }

  /** A component of a normalised path climbs nowhere, holds no separator and no character that is
      special on some system, does not end in a dot or a blank, and is no device name in any
      case, whatever its extension. */
  lemma SafeNames(path: string, c: string)
    requires NormalizeStored(path).Ok? && c in NormalizeStored(path).value
    ensures c !in {"", ".", ".."} && c[|c| - 1] !in {'.', ' '}
    ensures forall x :: x in c ==> x as int >= 0x20 && x !in {'/', '\\', ':', '<', '>', '"', '|', '?', '*', '\U{7F}'}
    ensures forall n :: 0 <= n <= |c| && (n == |c| || c[n] == '.') ==> Upper(c[..n]) !in DEVICES
  {
    NormalizedIsCanonical(path);
    hide NormalizeStored;
    assert LegalComponent(c);
    forall n | 0 <= n <= |c| && (n == |c| || c[n] == '.')
      ensures Upper(c[..n]) !in DEVICES
    {
      if Upper(c[..n]) in DEVICES {
        UpperDots(c[..n]);
        NoDots(Upper(c[..n]));
        StemIs(c, n);
        DevicesRefused(Upper(c[..n]));
      }
    }
  }

  lemma DevicesRefused(stem: string)
    requires stem in DEVICES
    ensures DeviceStem(stem)
  {
    if |stem| == 4 {
      assert stem[..3] == "COM" || stem[..3] == "LPT" by {
        assert stem[..3] == [stem[0]] + [stem[1]] + [stem[2]];
      }
    }
  }
}
