/** The employee list page (gestion_conge_frent/src/components/ListAddEmp.tsx):
    the e-mail check, the validation sequence of the add-employee dialog,
    and the initials shown in each card's avatar. */
module ListAddEmp {
  import opened EmployeeContext

  // ---------------------------------------------------------------------
  // The e-mail check: `/^[^\s@]+@[^\s@]+\.[^\s@]+$/`.

  /** A character JavaScript's `\s` matches. */
  predicate IsJsSpace(c: char) {
    || c == '\t' || c == '\n' || c == '\U{B}' || c == '\U{C}' || c == '\r' || c == ' '
    || c == '\U{A0}' || c == '\U{1680}' || ('\U{2000}' <= c <= '\U{200A}')
    || c == '\U{2028}' || c == '\U{2029}' || c == '\U{202F}' || c == '\U{205F}'
    || c == '\U{3000}' || c == '\U{FEFF}'
  }

  /** A character `[^\s@]` matches. */
  predicate IsWordChar(c: char) {
    !IsJsSpace(c) && c != '@'
  }

  /** Some `.` after the `@` has a character on either side. */
  predicate HasInnerDot(t: string) {
    exists j :: 0 < j < |t| - 1 && t[j] == '.'
  }

  /** `isValidEmail`: no whitespace, exactly one `@` with something before
      it, and after it a `.` that is neither its first nor its last
      character. */
  predicate IsValidEmail(s: string)
    ensures IsValidEmail(s) ==> 5 <= |s|
  {
    && (forall i :: 0 <= i < |s| ==> !IsJsSpace(s[i]))
    && exists at :: 0 < at < |s| && s[at] == '@'
         && (forall i :: 0 <= i < |s| && i != at ==> s[i] != '@')
         && HasInnerDot(s[at + 1..])
  }

  /** `[^\s@]+` */
  ghost predicate IsRun(w: string) {
    |w| > 0 && forall i :: 0 <= i < |w| ==> IsWordChar(w[i])
  }

  ghost predicate SplitsAs(s: string, a: string, b: string, c: string) {
    s == a + "@" + b + "." + c
  }

  /** The language of the pattern: three runs joined by `@` and `.`. */
  ghost predicate MatchesEmailPattern(s: string) {
    exists a, b, c :: SplitsAs(s, a, b, c) && IsRun(a) && IsRun(b) && IsRun(c)
  }

  /** The check accepts exactly the strings the pattern matches. */
  lemma IsValidEmailMatchesPattern(s: string)
    ensures IsValidEmail(s) <==> MatchesEmailPattern(s)
  {
    if IsValidEmail(s) {
      ValidEmailMatches(s);
    }
    if MatchesEmailPattern(s) {
      var a, b, c :| SplitsAs(s, a, b, c) && IsRun(a) && IsRun(b) && IsRun(c);
      MatchIsValidEmail(s, a, b, c);
    }
  }

  /** The runs around the one `@` and an inner `.` after it match the pattern. */
  lemma ValidEmailMatches(s: string)
    requires IsValidEmail(s)
    ensures MatchesEmailPattern(s)
  {
    var at :| 0 < at < |s| && s[at] == '@'
       && (forall i :: 0 <= i < |s| && i != at ==> s[i] != '@')
       && HasInnerDot(s[at + 1..]);
    var j :| 0 < j < |s[at + 1..]| - 1 && s[at + 1..][j] == '.';
    var dot := at + 1 + j;
    assert s[dot] == '.';
    var a, b, c := s[..at], s[at + 1..dot], s[dot + 1..];
    assert IsRun(a) && IsRun(b) && IsRun(c) by {
      SliceIsRun(s, 0, at, at);
      SliceIsRun(s, at + 1, dot, at);
      SliceIsRun(s, dot + 1, |s|, at);
    }
    assert SplitsAs(s, a, b, c) by {
      CutTwice(s, at, dot);
    }
  }

  /** A string is its pieces around two positions. */
  lemma CutTwice(s: string, at: int, dot: int)
    requires 0 <= at < dot < |s|
    ensures s == s[..at] + [s[at]] + s[at + 1..dot] + [s[dot]] + s[dot + 1..]
  {
    assert s == s[..at] + s[at..];
    assert s[at..] == [s[at]] + s[at + 1..];
    assert s[at + 1..] == s[at + 1..dot] + s[dot..];
    assert s[dot..] == [s[dot]] + s[dot + 1..];
  }

  /** A non-empty slice of a checked e-mail that avoids its `@` is a run. */
  lemma SliceIsRun(s: string, lo: int, hi: int, at: int)
    requires 0 <= lo < hi <= |s|
    requires forall i :: 0 <= i < |s| ==> !IsJsSpace(s[i])
    requires forall i :: 0 <= i < |s| && i != at ==> s[i] != '@'
    requires at < lo || hi <= at
    ensures IsRun(s[lo..hi])
  {
    forall i | 0 <= i < hi - lo ensures IsWordChar(s[lo..hi][i]) {
      assert s[lo..hi][i] == s[lo + i];
    }
  }

  /** A string the pattern matches passes the check, its `@` at `|a|`. */
  lemma MatchIsValidEmail(s: string, a: string, b: string, c: string)
    requires SplitsAs(s, a, b, c) && IsRun(a) && IsRun(b) && IsRun(c)
    ensures IsValidEmail(s)
  {
    var at := |a|;
    forall i | 0 <= i < |s| ensures !IsJsSpace(s[i]) && (i != at ==> s[i] != '@') {
      if i < at {
        assert s[i] == a[i];
      } else if i == at {
      } else if i < at + 1 + |b| {
        assert s[i] == b[i - at - 1];
      } else if i == at + 1 + |b| {
      } else {
        assert s[i] == c[i - at - 2 - |b|];
      }
    }
    var t := s[at + 1..];
    assert t == b + "." + c;
    assert t[|b|] == '.';
    assert HasInnerDot(t);
    assert s[at] == '@' && 0 < at < |s|;
  }

  // ---------------------------------------------------------------------
  // The add-employee dialog.

  /** The dialog's form as first shown and as reset after an add. */
  const BlankForm := EmployeeFields("", "", "", 0, 0, 0)

  /** Which branch `handleAddEmployee` takes. */
  datatype FormCheck =
    | MissingFields  // "Veuillez remplir tous les champs obligatoires."
    | InvalidEmail   // "Veuillez saisir une adresse email valide."
    | Accepted       // handed to `addEmployee`

  /** The two early returns of `handleAddEmployee`, in order. */
  function CheckForm(f: EmployeeFields): (r: FormCheck)
    ensures r == MissingFields <==> f.name == "" || f.email == "" || f.department == ""
    ensures r == InvalidEmail <==> f.name != "" && f.email != "" && f.department != "" && !IsValidEmail(f.email)
    ensures r == Accepted ==> IsValidEmail(f.email) && f.name != "" && f.department != ""
  {
    if f.name == "" || f.email == "" || f.department == "" then MissingFields
    else if !IsValidEmail(f.email) then InvalidEmail
    else Accepted
  }

  class AddEmployeeDialog {
    var form: EmployeeFields
    var open: bool

    constructor ()
      ensures form == BlankForm && !open
    {
      form := BlankForm;
      open := false;
    }

    /** `handleAddEmployee`: a rejected form changes nothing; an accepted
        one goes to `addEmployee` as it is, which never throws, so the form
        is reset and the dialog closed whatever the server answered. */
    method HandleAddEmployee(provider: EmployeeProvider, answer: AddAnswer) returns (check: FormCheck)
      modifies this, provider
      ensures check == CheckForm(old(form))
      ensures check != Accepted ==>
        form == old(form) && open == old(open) && provider.employees == old(provider.employees)
      ensures check == Accepted ==>
        && form == BlankForm && !open
        && provider.employees == if answer.EmployeeAdded? then old(provider.employees) + [WithId(old(form), answer.id)]
                                 else old(provider.employees)
    {
      var f := form;
      if f.name == "" || f.email == "" || f.department == "" {
        return MissingFields;
      }
      if !IsValidEmail(f.email) {
        return InvalidEmail;
      }
      provider.AddEmployee(f, answer);
      form := BlankForm;
      open := false;
      check := Accepted;
    }
  }

  /** An e-mail with whitespace or without an `@` never reaches `addEmployee`. */
  lemma MalformedEmailNeverAdded(f: EmployeeFields, i: int)
    ensures 0 <= i < |f.email| && IsJsSpace(f.email[i]) ==> CheckForm(f) != Accepted
    ensures (forall k :: 0 <= k < |f.email| ==> f.email[k] != '@') ==> CheckForm(f) != Accepted
  {
  }

  // ---------------------------------------------------------------------
  // The avatar initials: `name.split(' ').map(n => n[0]).join('').toUpperCase()`.

  /** `s.split(sep)` for a one-character separator: the pieces between
      separators, empty ones included; never an empty list. */
  function SplitOn(s: string, sep: char): (words: seq<string>)
    ensures |words| >= 1
    decreases |s|
  {
    if s == [] then [""]
    else
      var rest := SplitOn(s[1..], sep);
      if s[0] == sep then [""] + rest
      else [[s[0]] + rest[0]] + rest[1..]
  }

  /** `words.join(sep)` */
  function JoinWith(words: seq<string>, sep: char): string
    decreases |words|
  {
    if |words| == 0 then ""
    else if |words| == 1 then words[0]
    else words[0] + [sep] + JoinWith(words[1..], sep)
  }

  /** `n[0]` of each word, where an empty word's `undefined` joins as "". */
  function FirstChars(words: seq<string>): string
    decreases |words|
  {
    if |words| == 0 then ""
    else (if words[0] == "" then "" else [words[0][0]]) + FirstChars(words[1..])
  }

  /** `toUpperCase` on ASCII letters; every other character is kept. */
  function UpperAscii(c: char): char {
    if 'a' <= c <= 'z' then (c as int - 32) as char else c
  }

  function ToUpper(s: string): (r: string)
    ensures |r| == |s| && forall i :: 0 <= i < |s| ==> r[i] == UpperAscii(s[i])
  {
    seq(|s|, i requires 0 <= i < |s| => UpperAscii(s[i]))
  }

  function Initials(name: string): (r: string)
    ensures |r| == |NonEmpty(SplitOn(name, ' '))|
    ensures forall i :: 0 <= i < |r| ==> !('a' <= r[i] <= 'z')
  {
    FirstCharsCount(SplitOn(name, ' '));
    ToUpper(FirstChars(SplitOn(name, ' ')))
  }

  /** Splitting then joining gives the string back. */
  lemma {:induction false} JoinSplit(s: string, sep: char)
    ensures JoinWith(SplitOn(s, sep), sep) == s
    decreases |s|
  {
    if s != [] {
      var rest := SplitOn(s[1..], sep);
      JoinSplit(s[1..], sep);
      if s[0] == sep {
        assert SplitOn(s, sep) == [""] + rest;
        assert s == [sep] + s[1..];
      } else if |rest| == 1 {
        assert SplitOn(s, sep) == [[s[0]] + rest[0]];
        assert s == [s[0]] + s[1..];
      } else {
        var words := SplitOn(s, sep);
        assert words[1..] == rest[1..];
        assert JoinWith(rest, sep) == rest[0] + [sep] + JoinWith(rest[1..], sep);
        assert s == [s[0]] + s[1..];
      }
    }
  }

  /** No piece of a split contains the separator. */
  lemma {:induction false} SplitPiecesHaveNoSep(s: string, sep: char)
    ensures forall k :: 0 <= k < |SplitOn(s, sep)| ==> sep !in SplitOn(s, sep)[k]
    decreases |s|
  {
    if s != [] {
      SplitPiecesHaveNoSep(s[1..], sep);
    }
  }

  /** Joining separator-free pieces then splitting gives the pieces back. */
  lemma {:induction false} SplitJoin(words: seq<string>, sep: char)
    requires |words| >= 1
    requires forall k :: 0 <= k < |words| ==> sep !in words[k]
    ensures SplitOn(JoinWith(words, sep), sep) == words
    decreases |words|
  {
    if |words| == 1 {
      SplitWithoutSep(words[0], sep);
    } else {
      var rest := words[1..];
      assert forall k :: 0 <= k < |rest| ==> rest[k] == words[k + 1];
      SplitJoin(rest, sep);
      var joined := JoinWith(rest, sep);
      assert JoinWith(words, sep) == words[0] + [sep] + joined;
      SplitAppendSep(words[0], joined, sep);
      SplitWithoutSep(words[0], sep);
      assert words == [words[0]] + rest;
    }
  }

  /** A string without the separator splits into itself. */
  lemma {:induction false} SplitWithoutSep(w: string, sep: char)
    requires sep !in w
    ensures SplitOn(w, sep) == [w]
    decreases |w|
  {
    if w != [] {
      assert sep !in w[1..] by {
        forall i | 0 <= i < |w[1..]| ensures w[1..][i] != sep { assert w[1..][i] == w[i + 1]; }
      }
      SplitWithoutSep(w[1..], sep);
      assert w == [w[0]] + w[1..];
    }
  }

  /** One step of `SplitOn`: a leading separator ends an empty first piece. */
  lemma SplitConsSep(t: string, sep: char)
    ensures SplitOn([sep] + t, sep) == [""] + SplitOn(t, sep)
  {
    assert ([sep] + t)[1..] == t;
  }

  /** One step of `SplitOn`: any other leading character joins the first
      piece of the rest. */
  lemma SplitConsOther(c: char, t: string, sep: char)
    requires c != sep
    ensures SplitOn([c] + t, sep) == [[c] + SplitOn(t, sep)[0]] + SplitOn(t, sep)[1..]
  {
    assert ([c] + t)[1..] == t;
  }

  /** Putting the same character in front of two strings keeps a common
      tail of their splits. */
  lemma SplitConsAppend(c: char, t: string, u: string, right: seq<string>, sep: char)
    requires SplitOn(t, sep) == SplitOn(u, sep) + right
    ensures SplitOn([c] + t, sep) == SplitOn([c] + u, sep) + right
  {
    var rest := SplitOn(u, sep);
    if c == sep {
      SplitConsSep(t, sep);
      SplitConsSep(u, sep);
      ConsAppend("", rest, right);
    } else {
      SplitConsOther(c, t, sep);
      SplitConsOther(c, u, sep);
      assert (rest + right)[0] == rest[0];
      HeadReplacedAppend([c] + rest[0], rest, right);
    }
  }

  lemma ConsAppend<T>(h: T, s: seq<T>, right: seq<T>)
    ensures [h] + (s + right) == [h] + s + right
  {
  }

  lemma HeadReplacedAppend<T>(h: T, s: seq<T>, right: seq<T>)
    requires |s| >= 1
    ensures [h] + (s + right)[1..] == [h] + s[1..] + right
  {
    assert (s + right)[1..] == s[1..] + right;
  }

  /** A separator between two strings splits them apart. */
  lemma {:induction false} SplitAppendSep(a: string, b: string, sep: char)
    ensures SplitOn(a + [sep] + b, sep) == SplitOn(a, sep) + SplitOn(b, sep)
    decreases |a|
  {
    if a == [] {
      assert a + [sep] + b == [sep] + b;
      SplitConsSep(b, sep);
    } else {
      var t := a[1..] + [sep] + b;
      assert a + [sep] + b == [a[0]] + t;
      assert a == [a[0]] + a[1..];
      SplitAppendSep(a[1..], b, sep);
      SplitConsAppend(a[0], t, a[1..], SplitOn(b, sep), sep);
    }
  }

  lemma {:induction false} FirstCharsAppend(u: seq<string>, v: seq<string>)
    ensures FirstChars(u + v) == FirstChars(u) + FirstChars(v)
    decreases |u|
  {
    if u != [] {
      var head := if u[0] == "" then "" else [u[0][0]];
      FirstCharsAppend(u[1..], v);
      assert (u + v)[0] == u[0];
      assert (u + v)[1..] == u[1..] + v;
      assert FirstChars(u + v) == head + FirstChars(u[1..] + v);
      assert FirstChars(u) == head + FirstChars(u[1..]);
    } else {
      assert u + v == v;
    }
  }

  /** The initials of two space-separated parts are the initials of each. */
  lemma InitialsSplit(a: string, b: string)
    ensures Initials(a + " " + b) == Initials(a) + Initials(b)
  {
    SplitAppendSep(a, b, ' ');
    FirstCharsAppend(SplitOn(a, ' '), SplitOn(b, ' '));
  }

  /** A single word's initial is its first character, upper-cased; an
      empty name has none. */
  lemma InitialsOfWord(w: string)
    requires ' ' !in w
    ensures w == "" ==> Initials(w) == ""
    ensures w != "" ==> Initials(w) == [UpperAscii(w[0])]
  {
    SplitWithoutSep(w, ' ');
    assert FirstChars([w]) == (if w == "" then "" else [w[0]]) + FirstChars([]);
  }

  /** One initial per non-empty word, at most one per word. */
  lemma {:induction false} FirstCharsCount(words: seq<string>)
    ensures |FirstChars(words)| == |NonEmpty(words)| <= |words|
    decreases |words|
  {
    if words != [] {
      FirstCharsCount(words[1..]);
    }
  }

  /** The non-empty words, in order. */
  function NonEmpty(words: seq<string>): seq<string>
    decreases |words|
  {
    if words == [] then []
    else (if words[0] == "" then [] else [words[0]]) + NonEmpty(words[1..])
  }
}
