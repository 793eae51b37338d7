/** The password field's strength meter: a score from 0 to 5 counting the criteria a password
    meets, the label and text colour indexed by it, and the bar's colour and width. */
module PasswordField {
  import opened Text
  import opened Sequences

  /** `/[^A-Za-z0-9]/`: any character outside the ASCII letters and digits. */
  predicate IsSymbol(c: char) { !IsAsciiAlnum(c) }

  function Point(b: bool): nat { if b then 1 else 0 }

  /** `getPasswordStrength(...).strength`. */
  function Strength(password: string): (strength: nat)
    ensures strength <= 5
    ensures password == "" ==> strength == 0
  {
    if password == "" then 0
    else
      Point(|password| >= 8) + Point(HasChar(password, IsUpper)) + Point(HasChar(password, IsLower))
      + Point(HasChar(password, IsDigit)) + Point(HasChar(password, IsSymbol))
  }

  datatype Criterion = LongEnough | HasUpper | HasLower | HasDigit | HasSymbol

  /** Whether a password meets one criterion. */
  predicate Meets(password: string, c: Criterion) {
    match c
    case LongEnough => |password| >= 8
    case HasUpper => exists i :: 0 <= i < |password| && IsUpper(password[i])
    case HasLower => exists i :: 0 <= i < |password| && IsLower(password[i])
    case HasDigit => exists i :: 0 <= i < |password| && IsDigit(password[i])
    case HasSymbol => exists i :: 0 <= i < |password| && !IsAsciiAlnum(password[i])
  }

  const AllCriteria: seq<Criterion> := [LongEnough, HasUpper, HasLower, HasDigit, HasSymbol]

  /** The score of a non-empty password is the number of criteria it meets. */
  lemma StrengthCountsCriteria(password: string)
    requires password != ""
    ensures Strength(password) == Count(AllCriteria, (c: Criterion) => Meets(password, c))
  {
    var meets := (c: Criterion) => Meets(password, c);
    assert AllCriteria[1..] == [HasUpper, HasLower, HasDigit, HasSymbol];
    assert AllCriteria[2..] == [HasLower, HasDigit, HasSymbol];
    assert AllCriteria[3..] == [HasDigit, HasSymbol];
    assert AllCriteria[4..] == [HasSymbol];
  }

  const Labels: seq<string> := ["", "弱い", "普通", "良い", "強い", "非常に強い"]
  const Colors: seq<string> := ["", "text-red-500", "text-orange-500", "text-yellow-500", "text-green-500", "text-blue-500"]

  /** The label; always an index within the table. */
  function StrengthLabel(password: string): (shown: string)
    ensures shown == Labels[Strength(password)]
    ensures shown == "" <==> password == ""
  {
    NonEmptyIsRated(password);
    if password == "" then "" else Labels[Strength(password)]
  }

  /** The label's colour class: none for the empty password, whose result carries no colour. */
  function StrengthColor(password: string): (color: string)
    ensures color == Colors[Strength(password)]
    ensures color == "" <==> password == ""
  {
    NonEmptyIsRated(password);
    if password == "" then "" else Colors[Strength(password)]
  }

  /** Any character meets at least one of the four character criteria, so a non-empty password
      scores at least 1. */
  lemma NonEmptyIsRated(password: string)
    ensures password != "" ==> Strength(password) >= 1
  {
    if password != "" {
      var c := password[0];
      if IsUpper(c) {
        assert HasChar(password, IsUpper);
      } else if IsLower(c) {
        assert HasChar(password, IsLower);
      } else if IsDigit(c) {
        assert HasChar(password, IsDigit);
      } else {
        assert HasChar(password, IsSymbol);
      }
    }
  }

  /** Typing more characters never lowers the score. */
  lemma StrengthMonotone(password: string, more: string)
    ensures Strength(password) <= Strength(password + more)
  {
    var p := password + more;
    if password != "" {
      HasCharExtends(password, more, IsUpper);
      HasCharExtends(password, more, IsLower);
      HasCharExtends(password, more, IsDigit);
      HasCharExtends(password, more, IsSymbol);
    }
  }

  lemma HasCharExtends(s: string, more: string, p: char -> bool)
    ensures HasChar(s, p) ==> HasChar(s + more, p)
  {
    if HasChar(s, p) {
      var i :| 0 <= i < |s| && p(s[i]);
      assert (s + more)[i] == s[i];
    }
  }

  datatype BarColor = Red | Orange | Yellow | Green | Blue

  /** The bar's colour: red up to 1, then one colour per score. */
  function BarColorOf(strength: nat): (c: BarColor)
    ensures c == Red <==> strength <= 1
    ensures c == Orange <==> strength == 2
    ensures c == Yellow <==> strength == 3
    ensures c == Green <==> strength == 4
    ensures c == Blue <==> strength >= 5
  {
    if strength <= 1 then Red
    else if strength <= 2 then Orange
    else if strength <= 3 then Yellow
    else if strength <= 4 then Green
    else Blue
  }

  /** The bar's width in percent, `strength / 5 * 100`. */
  function BarWidthPercent(strength: nat): (w: nat)
    requires strength <= 5
    ensures w <= 100 && w % 20 == 0 && w / 20 == strength
  {
    strength * 20
  }

  /** The bar is full exactly for a password meeting all five criteria, such as `Abcdef1!`. */
  lemma FullBar()
    ensures BarWidthPercent(Strength("Abcdef1!")) == 100
    ensures BarColorOf(Strength("Abcdef1!")) == Blue && StrengthLabel("Abcdef1!") == "非常に強い"
  {
    var p := "Abcdef1!";
    assert IsUpper(p[0]) && IsLower(p[1]) && IsDigit(p[6]) && IsSymbol(p[7]);
  }
}
