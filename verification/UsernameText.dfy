/** What a normalized name keeps of the text it was made from. */
module UsernameText {
  import opened Options
  import opened Username

  predicate IsLatin(c: char) {
    'a' <= c <= 'z' || 'A' <= c <= 'Z'
  }

  predicate IsLetterOrDigit(c: char) {
    IsLatin(c) || '0' <= c <= '9'
  }

  /** The letters and digits of a text, in order. */
  function Letters(s: string): string {
    if s == "" then "" else (if IsLetterOrDigit(s[0]) then [s[0]] else "") + Letters(s[1..])
  }

  function Kept(c: char): string {
    if IsLetterOrDigit(c) then [c] else ""
  }

  lemma LettersCons(c: char, s: string)
    ensures Letters([c] + s) == Kept(c) + Letters(s)
  {
    assert ([c] + s)[1..] == s;
  }

  lemma Regroup(a: string, b: string, c: string)
    ensures (a + b) + c == a + (b + c)
  {
  }

  lemma {:induction false} LettersConcat(a: string, b: string)
    ensures Letters(a + b) == Letters(a) + Letters(b)
  {
    if a == "" {
      assert a + b == b;
    } else {
      var c, rest := a[0], a[1..];
      assert a == [c] + rest;
      LettersConcat(rest, b);
      LettersCons(c, rest);
      LettersCons(c, rest + b);
      Regroup([c], rest, b);
      Regroup(Kept(c), Letters(rest), Letters(b));
    }
  }

  lemma {:induction false} NoLetters(s: string)
    requires forall i :: 0 <= i < |s| ==> !IsLetterOrDigit(s[i])
    ensures Letters(s) == ""
  {
    if s != "" {
      NoLetters(s[1..]);
    }
  }

  lemma {:induction false} LettersOfClean(s: string)
    ensures Letters(Clean(s)) == Letters(s)
  {
    if s != "" {
      LettersOfClean(s[1..]);
      assert Clean(s)[1..] == Clean(s[1..]);
    }
  }

  lemma {:induction false} LettersOfCollapse(s: string)
    ensures Letters(Collapse(s)) == Letters(s)
  {
    if s != "" {
      LettersOfCollapse(s[1..]);
      var r := [s[0]] + Collapse(s[1..]);
      assert r[1..] == Collapse(s[1..]);
    }
  }

  lemma LettersOfStrip(s: string)
    ensures Letters(Strip(s)) == Letters(s)
  {
    var left := StripLeft(s);
    var i := StripLeftAt(s);
    var j := StripRightAt(left);
    NoLetters(s[..i]);
    LettersConcat(s[..i], left);
    assert s == s[..i] + left;
    NoLetters(left[j..]);
    LettersConcat(left[..j], left[j..]);
    assert left == left[..j] + left[j..];
  }

  lemma LettersOfCut(s: string)
    ensures Letters(Cut(s)) <= Letters(s)
  {
    var n := |Cut(s)|;
    LettersConcat(s[..n], s[n..]);
    assert s == s[..n] + s[n..] && Cut(s) == s[..n];
  }

  /** The text before it is cut to length. */
  function Cleaned(raw: string): string {
    Strip(Collapse(Clean(TransliterateAll(raw))))
  }

  /** No letter or digit is lost, invented or moved, except that a long name is cut
      at its end. */
  lemma LettersKept(raw: string)
    ensures Letters(Normalize(Some(raw))) <= Letters(TransliterateAll(raw))
    ensures |Cleaned(raw)| <= 93 ==> Letters(Normalize(Some(raw))) == Letters(TransliterateAll(raw))
  {
    if raw != "" {
      var text := TransliterateAll(raw);
      LettersOfClean(text);
      LettersOfCollapse(Clean(text));
      LettersOfStrip(Collapse(Clean(text)));
      LettersOfCut(Cleaned(raw));
      LettersOfStrip(Cut(Cleaned(raw)));
    }
  }

  /** Any run of spaces comes out as one space: words stay apart. */
  lemma {:induction false} OneSpaceOfTwo(a: string, b: string)
    ensures Collapse(a + "  " + b) == Collapse(a + " " + b)
  {
    var two, one := a + "  " + b, a + " " + b;
    if a == "" {
      assert two[1..] == one;
    } else {
      OneSpaceOfTwo(a[1..], b);
      assert two[1..] == a[1..] + "  " + b && one[1..] == a[1..] + " " + b;
      assert |a| >= 2 ==> two[1] == a[1] && one[1] == a[1];
    }
  }

  lemma StripSplits(s: string) returns (left: string, right: string)
    ensures s == left + (Strip(s) + right)
    ensures (forall c <- left :: Trimmed(c)) && forall c <- right :: Trimmed(c)
  {
    var mid := StripLeft(s);
    var i := StripLeftAt(s);
    var j := StripRightAt(mid);
    left, right := s[..i], mid[j..];
    assert mid == Strip(s) + right && s == left + mid;
  }

  lemma EndMarks(s: string)
    requires forall c <- s :: Trimmed(c)
    ensures forall c <- s :: c in " ,.'-"
  {
    forall c <- s ensures c in " ,.'-" {
      TrimmedMeans(c);
    }
  }

  /** Stripping takes away spaces, commas, full stops, apostrophes and hyphens at
      the ends, all of them and nothing else. */
  lemma StripMeans(s: string) returns (left: string, right: string)
    ensures s == left + (Strip(s) + right)
    ensures (forall c <- left :: c in " ,.'-") && forall c <- right :: c in " ,.'-"
    ensures Strip(s) != "" ==> Strip(s)[0] !in " ,.'-" && Strip(s)[|Strip(s)| - 1] !in " ,.'-"
  {
    StripResult(s);
    left, right := StripSplits(s);
    EndMarks(left);
    EndMarks(right);
    if Strip(s) != "" {
      TrimmedMeans(Strip(s)[0]);
      TrimmedMeans(Strip(s)[|Strip(s)| - 1]);
    }
  }

  /** A text that is too long is cut after 93 characters, and then stripped again. */
  lemma LongIsCut(raw: string) returns (right: string)
    ensures |Cleaned(raw)| > 93 ==> Cleaned(raw)[..93] == Normalize(Some(raw)) + right
    ensures forall c <- right :: c in " ,.'-"
  {
    right := "";
    if |Cleaned(raw)| > 93 {
      NothingFromNothing(raw);
      StripResult(Collapse(Clean(TransliterateAll(raw))));
      right := StripsRightOnly(Cleaned(raw)[..93]);
      EndMarks(right);
    }
  }

  lemma NothingFromNothing(raw: string)
    requires Cleaned(raw) != ""
    ensures raw != ""
  {
    assert Clean("") == "";
  }

  lemma StripsRightOnly(text: string) returns (right: string)
    requires text != "" && !Trimmed(text[0])
    ensures text == Strip(text) + right && forall c <- right :: Trimmed(c)
  {
    var left;
    left, right := StripSplits(text);
    if left != "" {
      FirstOf(left, Strip(text) + right, text);
    }
  }

  lemma FirstOf(a: string, b: string, text: string)
    requires a != "" && text == a + b
    ensures text[0] in a
  {
  }

  lemma TrimmedMeans(c: char)
    ensures Trimmed(c) <==> c in " ,.'-"
  {
    var ends := " ,.'-";
    assert ends[0] == ' ' && ends[1] == ',' && ends[2] == '.' && ends[3] == '\'' && ends[4] == '-';
  }

  lemma LatinIsLatin(n: nat)
    requires n < |LATIN|
    ensures |LATIN| == 32 && (forall x <- LATIN[n] :: 'a' <= x <= 'z') && (LATIN[n] == "" <==> n in {26, 28})
  {
  }

  /** A small Cyrillic letter becomes small Latin letters; the two signs without a
      sound vanish. */
  lemma SmallLetter(c: char)
    requires 0x430 <= c as int <= 0x44F
    ensures forall x <- Transliterate(c) :: 'a' <= x <= 'z'
    ensures Transliterate(c) == "" <==> c as int in {0x44A, 0x44C}
  {
    LatinIsLatin(c as int - 0x430);
  }

  /** A capital one becomes what the small one does, with a capital at the front, and
      stays if that is nothing. */
  lemma CapitalLetter(c: char)
    requires 0x410 <= c as int <= 0x42F
    ensures var small := Transliterate((c as int + 0x20) as char);
            if small == "" then Transliterate(c) == [c]
            else |Transliterate(c)| == |small| && 'A' <= Transliterate(c)[0] <= 'Z'
                 && Transliterate(c)[0] as int == small[0] as int - 32 && Transliterate(c)[1..] == small[1..]
  {
    var small := LATIN[c as int - 0x410];
    LatinIsLatin(c as int - 0x410);
    if small != "" {
      assert small[0] in small;
    }
  }

  lemma OtherLetter(c: char)
    ensures (c as int) < 0x401 ==> Transliterate(c) == [c]
    ensures Transliterate('\U{451}') == "e" && Transliterate('\U{401}') == "E"
  {
  }

  /** The shape of every result in its own terms, and which names are left alone. */
  lemma NormalMeans(s: string)
    ensures Normalize(Some(s)) == s <==>
      && |s| <= 93 && (forall c <- s :: IsLetterOrDigit(c) || c in " ,.'-")
      && (forall i :: 0 <= i < |s| - 1 ==> !(s[i] == ' ' && s[i + 1] == ' '))
      && (s != "" ==> s[0] !in " ,.'-" && s[|s| - 1] !in " ,.'-")
  {
    NormalIsFixed(s);
    forall c: char {
      TrimmedMeans(c);
    }
  }

  /** The base: the wished-for name, else the part of the address before the first
      at sign, else "user". */
  lemma BaseMeans(preferred: Option<string>, email: string) returns (local: string)
    ensures '@' !in local && |local| <= |email| && email[..|local|] == local && (|local| < |email| ==> email[|local|] == '@')
    ensures Normalize(preferred) != "" ==> Base(preferred, email) == Normalize(preferred)
    ensures Normalize(preferred) == "" && Normalize(Some(local)) != "" ==> Base(preferred, email) == Normalize(Some(local))
    ensures Normalize(preferred) == "" && Normalize(Some(local)) == "" ==> Base(preferred, email) == "user"
    ensures Normalize(None) == ""
  {
    local := BeforeAt(email);
    BeforeFirstAt(email);
  }

  lemma {:induction false} BeforeFirstAt(email: string)
    ensures var local := BeforeAt(email);
            '@' !in local && |local| <= |email| && email[..|local|] == local && (|local| < |email| ==> email[|local|] == '@')
  {
    if email != "" && email[0] != '@' {
      BeforeFirstAt(email[1..]);
      var local := BeforeAt(email);
      assert email[1..][..|local| - 1] == local[1..];
      assert email[..|local|] == [email[0]] + email[1..][..|local| - 1];
    }
  }
}
