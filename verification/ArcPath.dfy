/** Paths of (W)ARC files, and shard ids written as text. */
module ArcPath {
  import opened Wrappers

  /** The index of the last slash among the first n characters, or -1. */
  function LastSlash(path: string, n: nat): (i: int)
    requires n <= |path|
    ensures -1 <= i < n
  {
    if n == 0 then -1 else if path[n - 1] == '/' then n - 1 else LastSlash(path, n - 1)
  }

  lemma {:induction false} LastSlashIsLast(path: string, n: nat)
    requires n <= |path|
    ensures LastSlash(path, n) >= 0 ==> path[LastSlash(path, n)] == '/'
    ensures forall j :: LastSlash(path, n) < j < n ==> path[j] != '/'
  {
    if n == 0 || path[n - 1] == '/' {
    } else {
      LastSlashIsLast(path, n - 1);
    }
  }

  /** A path, split into its folder (up to the last slash) and its file id. */
  datatype FullPath = FullPath(folder: string, id: string)

  /** The split form of the empty path. */
  const NO_ARC := FullPath("", "")

  function Split(path: string): FullPath {
    var i := LastSlash(path, |path|);
    FullPath(path[..i + 1], path[i + 1..])
  }

  function Join(p: FullPath): string {
    p.folder + p.id
  }

  predicate IsFolder(folder: string) {
    folder == "" || folder[|folder| - 1] == '/'
  }

  predicate IsFileId(id: string) {
    '/' !in id
  }

  predicate WellSplit(p: FullPath) {
    IsFolder(p.folder) && IsFileId(p.id)
  }

  /** Joining undoes splitting. */
  lemma SplitThenJoin(path: string)
    ensures Join(Split(path)) == path && WellSplit(Split(path))
  {
    LastSlashIsLast(path, |path|);
  }

  lemma {:induction false} LastSlashOfJoin(folder: string, id: string, n: nat)
    requires IsFolder(folder) && IsFileId(id) && n <= |id|
    ensures LastSlash(folder + id, |folder| + n) == |folder| - 1
  {
    if n == 0 {
    } else {
      assert (folder + id)[|folder| + n - 1] == id[n - 1];
      LastSlashOfJoin(folder, id, n - 1);
    }
  }

  /** Splitting undoes joining, so a row's id can be read back from its full path. */
  lemma JoinThenSplit(p: FullPath)
    requires WellSplit(p)
    ensures Split(Join(p)) == p
  {
    LastSlashOfJoin(p.folder, p.id, |p.id|);
  }

  /** Full paths are equal as text exactly when folder and file id are. */
  lemma SameTextSamePath(p: FullPath, q: FullPath)
    requires WellSplit(p) && WellSplit(q)
    ensures Join(p) == Join(q) <==> p == q
  {
    JoinThenSplit(p);
    JoinThenSplit(q);
  }

  // ---------- Integer.parseInt ----------

  const MAX_INT: int := 0x7fff_ffff

  predicate IsDigit(c: char) {
    '0' <= c <= '9'
  }

  predicate IsNumeral(s: string) {
    s != "" && forall c :: c in s ==> IsDigit(c)
  }

  function Digits(s: string): nat {
    if s == "" || !IsDigit(s[|s| - 1]) then 0
    else 10 * Digits(s[..|s| - 1]) + (s[|s| - 1] as int - '0' as int)
  }

  predicate Signed(s: string) {
    s != "" && (s[0] == '-' || s[0] == '+')
  }

  /** The number that a decimal numeral stands for, if it fits in 32 bits. */
  function ParseInt(s: string): Option<int> {
    var digits := if Signed(s) then s[1..] else s;
    if !IsNumeral(digits) then None
    else
      var n: int := if s[0] == '-' then -(Digits(digits) as int) else Digits(digits);
      if -MAX_INT - 1 <= n <= MAX_INT then Some(n) else None
  }

  // ---------- numerals ----------

  /** The decimal numeral of a number, without leading zeros. */
  function Numeral(n: nat): (s: string)
    ensures IsNumeral(s)
  {
    var digit := ['0' + (n % 10) as char];
    if n < 10 then digit else Numeral(n / 10) + digit
  }

  function Text(n: int): string {
    if n < 0 then "-" + Numeral(-n) else Numeral(n)
  }

  lemma {:induction false} DigitsOfNumeral(n: nat)
    ensures Digits(Numeral(n)) == n
  {
    var digit := ['0' + (n % 10) as char];
    assert digit[..0] == "" && Digits(digit) == n % 10;
    if n < 10 {
    } else {
      DigitsOfNumeral(n / 10);
      var all := Numeral(n / 10) + digit;
      assert all[..|all| - 1] == Numeral(n / 10) && all[|all| - 1] == digit[0];
    }
  }

  lemma NumeralHasNoSign(n: nat)
    ensures !Signed(Numeral(n))
  {
    assert Numeral(n)[0] in Numeral(n);
  }

  /** Reading the numeral of a number gives it back if it fits in 32 bits, and nothing otherwise. */
  lemma ParseUndoesText(n: int)
    ensures ParseInt(Text(n)) == if -0x8000_0000 <= n < 0x8000_0000 then Some(n) else None
  {
    if n < 0 {
      DigitsOfNumeral(-n);
      assert Text(n)[1..] == Numeral(-n);
    } else {
      DigitsOfNumeral(n);
      NumeralHasNoSign(n);
    }
  }
}
