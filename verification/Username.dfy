/** Usernames derived from a display name or an e-mail address. */
module Username {
  import opened Options

  const MIN_LENGTH := 4
  const MAX_LENGTH := 100
  const SUFFIX_LENGTH := 7
  const BASE_MAX_LENGTH := MAX_LENGTH - SUFFIX_LENGTH
  const FALLBACK_BASE := "user"
  const ATTEMPTS := 5

  /** Latin spellings of the Cyrillic letters U+0430 .. U+044F. */
  const LATIN: seq<string> := [
    "a", "b", "v", "g", "d", "e", "zh", "z", "i", "i", "k", "l", "m", "n", "o", "p",
    "r", "s", "t", "u", "f", "h", "c", "ch", "sh", "sch", "", "y", "", "e", "yu", "ya"]

  function Capitalize(s: string): string {
    if s != "" && 'a' <= s[0] <= 'z' then [(s[0] as int - 32) as char] + s[1..] else s
  }

  /** An upper-case letter without Latin spelling stays as it is. */
  function Transliterate(c: char): string {
    var n := c as int;
    if 0x430 <= n <= 0x44F then LATIN[n - 0x430]
    else if n == 0x451 then "e"
    else if 0x410 <= n <= 0x42F && LATIN[n - 0x410] != "" then Capitalize(LATIN[n - 0x410])
    else if n == 0x401 then "E"
    else [c]
  }

  function TransliterateAll(s: string): string {
    if s == "" then "" else Transliterate(s[0]) + TransliterateAll(s[1..])
  }

  predicate Allowed(c: char) {
    'a' <= c <= 'z' || 'A' <= c <= 'Z' || '0' <= c <= '9' || Trimmed(c)
  }

  predicate Trimmed(c: char) {
    c == ' ' || c == ',' || c == '.' || c == '\'' || c == '-'
  }

  function Clean(s: string): (r: string)
    ensures |r| == |s| && forall i :: 0 <= i < |s| ==> r[i] == if Allowed(s[i]) then s[i] else ' '
  {
    seq(|s|, i requires 0 <= i < |s| => if Allowed(s[i]) then s[i] else ' ')
  }

  /** Runs of spaces become one; after cleaning a space is the only white space left. */
  function Collapse(s: string): string {
    if |s| >= 2 && s[0] == ' ' && s[1] == ' ' then Collapse(s[1..])
    else if s == "" then ""
    else [s[0]] + Collapse(s[1..])
  }

  function StripLeft(s: string): string {
    if s != "" && Trimmed(s[0]) then StripLeft(s[1..]) else s
  }

  function StripRight(s: string): string {
    if s != "" && Trimmed(s[|s| - 1]) then StripRight(s[..|s| - 1]) else s
  }

  function Strip(s: string): string {
    StripRight(StripLeft(s))
  }

  function Cut(s: string): string {
    if |s| > BASE_MAX_LENGTH then s[..BASE_MAX_LENGTH] else s
  }

  function Normalize(raw: Option<string>): string {
    if raw.None? || raw.value == "" then ""
    else Strip(Cut(Strip(Collapse(Clean(TransliterateAll(raw.value))))))
  }

  // ----- what a normalized name looks like -----

  predicate AllAllowed(s: string) {
    forall c <- s :: Allowed(c)
  }

  predicate SingleSpaced(s: string) {
    forall i :: 0 <= i < |s| - 1 ==> !(s[i] == ' ' && s[i + 1] == ' ')
  }

  predicate TrimmedEnds(s: string) {
    s != "" ==> !Trimmed(s[0]) && !Trimmed(s[|s| - 1])
  }

  predicate IsNormal(s: string) {
    |s| <= BASE_MAX_LENGTH && AllAllowed(s) && SingleSpaced(s) && TrimmedEnds(s)
  }

  /** `part` is a stretch of `whole`. */
  predicate IsWithin(part: string, whole: string) {
    exists i: nat, j: nat :: i <= j <= |whole| && part == whole[i..j]
  }

  lemma WithinKeeps(part: string, whole: string)
    requires IsWithin(part, whole)
    ensures |part| <= |whole|
    ensures AllAllowed(whole) ==> AllAllowed(part)
    ensures SingleSpaced(whole) ==> SingleSpaced(part)
  {
    var i: nat, j: nat :| i <= j <= |whole| && part == whole[i..j];
    assert forall k | 0 <= k < |part| :: part[k] == whole[i + k];
    forall c <- part | AllAllowed(whole) ensures Allowed(c) {
      var k :| 0 <= k < |part| && part[k] == c;
      assert whole[i + k] in whole;
    }
  }

  /** Where the left end of the stripped text is. */
  lemma {:induction false} StripLeftAt(s: string) returns (i: nat)
    ensures i <= |s| && StripLeft(s) == s[i..] && forall k :: 0 <= k < i ==> Trimmed(s[k])
    ensures StripLeft(s) != "" ==> !Trimmed(StripLeft(s)[0])
  {
    if s != "" && Trimmed(s[0]) {
      var j := StripLeftAt(s[1..]);
      assert s[1..][j..] == s[j + 1..];
      i := j + 1;
    } else {
      assert s == s[0..];
      i := 0;
    }
  }

  /** Where its right end is. */
  lemma {:induction false} StripRightAt(s: string) returns (j: nat)
    ensures j <= |s| && StripRight(s) == s[..j] && forall k :: j <= k < |s| ==> Trimmed(s[k])
    ensures StripRight(s) != "" ==> !Trimmed(StripRight(s)[|StripRight(s)| - 1])
  {
    if s != "" && Trimmed(s[|s| - 1]) {
      var init := s[..|s| - 1];
      j := StripRightAt(init);
      assert init[..j] == s[..j];
    } else {
      assert s == s[..|s|];
      j := |s|;
    }
  }

  lemma StripResult(s: string)
    ensures IsWithin(Strip(s), s) && TrimmedEnds(Strip(s))
  {
    var left := StripLeft(s);
    var i := StripLeftAt(s);
    var j := StripRightAt(left);
    assert left[..j] == s[i..i + j];
    if Strip(s) != "" {
      assert Strip(s)[0] == left[0];
    }
  }

  lemma {:induction false} CollapseResult(s: string)
    ensures SingleSpaced(Collapse(s)) && (forall c <- Collapse(s) :: c in s)
    ensures s != "" ==> Collapse(s) != "" && Collapse(s)[0] == s[0]
  {
    if s != "" {
      CollapseResult(s[1..]);
      var rest := Collapse(s[1..]);
      assert s == [s[0]] + s[1..];
      if !(|s| >= 2 && s[0] == ' ' && s[1] == ' ') {
        var r := [s[0]] + rest;
        forall i | 0 <= i < |r| - 1 ensures !(r[i] == ' ' && r[i + 1] == ' ') {
          if i > 0 {
            assert r[i] == rest[i - 1] && r[i + 1] == rest[i];
          } else {
            assert s[1..] != "" && rest[0] == s[1];
          }
        }
      }
    }
  }

  lemma StripKeeps(s: string)
    requires AllAllowed(s) && SingleSpaced(s)
    ensures var r := Strip(s); AllAllowed(r) && SingleSpaced(r) && TrimmedEnds(r) && |r| <= |s|
  {
    StripResult(s);
    WithinKeeps(Strip(s), s);
  }

  lemma CutKeeps(s: string)
    requires AllAllowed(s) && SingleSpaced(s)
    ensures var r := Cut(s); AllAllowed(r) && SingleSpaced(r) && |r| <= BASE_MAX_LENGTH
  {
    assert Cut(s) == s[0..|Cut(s)|];
    WithinKeeps(Cut(s), s);
  }

  lemma CleanedIsAllowed(s: string)
    ensures AllAllowed(Collapse(Clean(s))) && SingleSpaced(Collapse(Clean(s)))
  {
    assert AllAllowed(Clean(s));
    CollapseResult(Clean(s));
  }

  /** Every result is normal, whatever the input. */
  lemma NormalizeIsNormal(raw: Option<string>)
    ensures IsNormal(Normalize(raw))
  {
    if raw.Some? && raw.value != "" {
      var text := TransliterateAll(raw.value);
      CleanedIsAllowed(text);
      StripKeeps(Collapse(Clean(text)));
      CutKeeps(Strip(Collapse(Clean(text))));
      StripKeeps(Cut(Strip(Collapse(Clean(text)))));
    }
  }

  // ----- a normal name is left alone -----

  lemma {:induction false} TransliterateAllowed(s: string)
    requires AllAllowed(s)
    ensures TransliterateAll(s) == s
  {
    if s != "" {
      assert s == [s[0]] + s[1..];
      assert s[0] in s && (s[0] as int) < 0x401;
      TransliterateAllowed(s[1..]);
    }
  }

  lemma {:induction false} CollapseSingleSpaced(s: string)
    requires SingleSpaced(s)
    ensures Collapse(s) == s
  {
    if s != "" {
      assert forall i | 0 <= i < |s[1..]| :: s[1..][i] == s[i + 1];
      CollapseSingleSpaced(s[1..]);
      assert s == [s[0]] + s[1..];
    }
  }

  /** Normal names are exactly the fixed points, and normalizing twice is
      normalizing once. */
  lemma NormalIsFixed(s: string)
    ensures IsNormal(s) <==> Normalize(Some(s)) == s
  {
    if IsNormal(s) {
      TransliterateAllowed(s);
      assert Clean(s) == s by {
        assert forall i | 0 <= i < |s| :: s[i] in s;
      }
      CollapseSingleSpaced(s);
      assert Strip(s) == s;
    }
    NormalizeIsNormal(Some(s));
  }

  lemma Idempotent(raw: Option<string>)
    ensures Normalize(Some(Normalize(raw))) == Normalize(raw)
  {
    NormalizeIsNormal(raw);
    NormalIsFixed(Normalize(raw));
  }

  // ----- generation -----

  function BeforeAt(email: string): string {
    if email == "" || email[0] == '@' then "" else [email[0]] + BeforeAt(email[1..])
  }

  function Base(preferred: Option<string>, email: string): string {
    var first, second := Normalize(preferred), Normalize(Some(BeforeAt(email)));
    if first != "" then first else if second != "" then second else FALLBACK_BASE
  }

  lemma BaseLength(preferred: Option<string>, email: string)
    ensures |Base(preferred, email)| <= BASE_MAX_LENGTH
  {
    NormalizeIsNormal(preferred);
    NormalizeIsNormal(Some(BeforeAt(email)));
  }

  function Candidate(base: string, token: string): string {
    base + "-" + token
  }

  function LastResort(base: string, uuid: string): string {
    var name := Candidate(base, uuid);
    if |name| > MAX_LENGTH then name[..MAX_LENGTH] else name
  }

  /** The first candidate that is free, unless all are taken. */
  predicate IsFirstFree(base: string, isFree: string -> bool, tokens: seq<string>, name: string) {
    exists i :: 0 <= i < |tokens| && name == base + "-" + tokens[i] && isFree(name)
                && forall k :: 0 <= k < i ==> !isFree(base + "-" + tokens[k])
  }

  predicate AllTaken(base: string, isFree: string -> bool, tokens: seq<string>) {
    forall t <- tokens :: !isFree(base + "-" + t)
  }

  method NameFor(base: string, isFree: string -> bool, tokens: seq<string>, uuid: string) returns (name: string)
    requires |base| <= BASE_MAX_LENGTH && (forall t <- tokens :: |t| == SUFFIX_LENGTH - 1) && |uuid| == 32
    ensures MIN_LENGTH <= |name| <= MAX_LENGTH
    ensures if |base| >= MIN_LENGTH && isFree(base) then name == base
            else if AllTaken(base, isFree, tokens) then
              name == if |base| + 1 + |uuid| > 100 then (base + "-" + uuid)[..100] else base + "-" + uuid
            else IsFirstFree(base, isFree, tokens, name)
  {
    if |base| >= MIN_LENGTH && isFree(base) {
      return base;
    }
    for i := 0 to |tokens|
      invariant forall k :: 0 <= k < i ==> !isFree(Candidate(base, tokens[k]))
    {
      if isFree(Candidate(base, tokens[i])) {
        assert |tokens[i]| == SUFFIX_LENGTH - 1;
        return Candidate(base, tokens[i]);
      }
    }
    name := LastResort(base, uuid);
  }

  /** `tokens` are the random suffixes of six hex digits drawn in turn, `uuid` the
      32 digits of the last resort.  The name always has an admissible length: it
      is the base if that is long enough and free, else the first free candidate,
      and only if all are taken the last resort, whose freedom nobody checks. */
  method Generate(preferred: Option<string>, email: string, isFree: string -> bool, tokens: seq<string>, uuid: string)
    returns (name: string)
    requires |tokens| == ATTEMPTS && (forall t <- tokens :: |t| == SUFFIX_LENGTH - 1) && |uuid| == 32
    ensures MIN_LENGTH <= |name| <= MAX_LENGTH
    ensures var base := Base(preferred, email);
            if |base| >= MIN_LENGTH && isFree(base) then name == base
            else if AllTaken(base, isFree, tokens) then
              name == if |base| + 1 + |uuid| > 100 then (base + "-" + uuid)[..100] else base + "-" + uuid
            else IsFirstFree(base, isFree, tokens, name)
  {
    BaseLength(preferred, email);
    name := NameFor(Base(preferred, email), isFree, tokens, uuid);
  }
}
