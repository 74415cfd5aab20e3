/**
  The rules for names as the regular expressions they are given by, and that
  the checks of the format accept exactly the words of these expressions.
 */
module NameRules {
  import opened Wire
  import opened Values

  datatype Regex =
    | Range(first: char, last: char)
    | OneOf(chars: string)
    | Nothing
    | Either(left: Regex, right: Regex)
    | Then(head: Regex, tail: Regex)
    | Many(item: Regex)

  ghost predicate Matches(r: Regex, s: Bytes)
    decreases r, |s|
  {
    match r
    case Range(first, last) => |s| == 1 && first as int <= s[0] <= last as int
    case OneOf(chars) => |s| == 1 && exists i | 0 <= i < |chars| :: chars[i] as int == s[0]
    case Nothing => s == []
    case Either(a, b) => Matches(a, s) || Matches(b, s)
    case Then(a, b) => exists k | 0 <= k <= |s| :: Matches(a, s[..k]) && Matches(b, s[k..])
    case Many(a) => s == [] || exists k | 1 <= k <= |s| :: Matches(a, s[..k]) && Matches(r, s[k..])
  }

  // ---------- Expressions for one character ----------

  predicate IsClass(r: Regex) {
    match r
    case Range(_, _) => true
    case OneOf(_) => true
    case Either(a, b) => IsClass(a) && IsClass(b)
    case _ => false
  }

  predicate InClass(r: Regex, c: byte)
    requires IsClass(r)
  {
    match r
    case Range(first, last) => first as int <= c <= last as int
    case OneOf(chars) => exists i | 0 <= i < |chars| :: chars[i] as int == c
    case Either(a, b) => InClass(a, c) || InClass(b, c)
  }

  lemma {:induction false} ClassMatches(r: Regex, s: Bytes)
    requires IsClass(r)
    ensures Matches(r, s) <==> |s| == 1 && InClass(r, s[0])
  {
    match r
    case Either(a, b) =>
      ClassMatches(a, s);
      ClassMatches(b, s);
    case _ =>
  }

  lemma {:induction false} ManyMatches(r: Regex, s: Bytes)
    requires IsClass(r)
    ensures Matches(Many(r), s) <==> forall i | 0 <= i < |s| :: InClass(r, s[i])
    decreases |s|
  {
    if s != [] {
      forall k | 1 <= k <= |s| ensures Matches(r, s[..k]) <==> k == 1 && InClass(r, s[0]) {
        ClassMatches(r, s[..k]);
      }
      ManyMatches(r, s[1..]);
      assert forall i | 0 < i < |s| :: s[i] == s[1..][i - 1];
      if forall i | 0 <= i < |s| :: InClass(r, s[i]) {
        assert forall i | 0 <= i < |s| - 1 :: s[1..][i] == s[i + 1];
        assert Matches(r, s[..1]) && Matches(Many(r), s[1..]);
      }
    }
  }

  lemma ThenMatches(r: Regex, rest: Regex, s: Bytes)
    requires IsClass(r)
    ensures Matches(Then(r, rest), s) <==> s != [] && InClass(r, s[0]) && Matches(rest, s[1..])
  {
    forall k | 0 <= k <= |s| ensures Matches(r, s[..k]) <==> k == 1 && InClass(r, s[0]) {
      ClassMatches(r, s[..k]);
    }
  }

  // ---------- The expressions ----------

  function Letter(): Regex { Either(Range('a', 'z'), Range('A', 'Z')) }

  function Alphanumeric(): Regex { Either(Letter(), Range('0', '9')) }

  function NameChar(): Regex { Either(Alphanumeric(), OneOf("-_!?+<>=/*")) }

  /** A letter and any number of name characters, one arithmetic operator, or a comparison. */
  function ClarityNameRegex(): Regex {
    Either(Then(Letter(), Many(NameChar())), Either(OneOf("-+=/*"), Then(OneOf("<>"), Either(Nothing, OneOf("=")))))
  }

  /** A letter and any number of letters, digits, hyphens and underscores. */
  function ContractNameRegex(): Regex { Then(Letter(), Many(Either(Alphanumeric(), OneOf("-_")))) }

  function Spelled(s: string): seq<int> { seq(|s|, i requires 0 <= i < |s| => s[i] as int) }

  lemma LetterIs(c: byte)
    ensures InClass(Letter(), c) <==> IsAlpha(c)
    ensures InClass(Alphanumeric(), c) <==> IsAlphanumeric(c)
  {
  }

  lemma PunctuationIs(c: byte)
    ensures InClass(OneOf("-_!?+<>=/*"), c) <==> c in {0x2d, 0x5f, 0x21, 0x3f, 0x2b, 0x3c, 0x3e, 0x3d, 0x2f, 0x2a}
    ensures InClass(OneOf("-_"), c) <==> c in {0x2d, 0x5f}
  {
    var all := "-_!?+<>=/*";
    assert all[0] == '-' && all[1] == '_' && all[2] == '!' && all[3] == '?' && all[4] == '+';
    assert all[5] == '<' && all[6] == '>' && all[7] == '=' && all[8] == '/' && all[9] == '*';
    var two := "-_";
    assert two[0] == '-' && two[1] == '_';
  }

  lemma OperatorsAre(c: byte)
    ensures InClass(OneOf("-+=/*"), c) <==> c in {0x2d, 0x2b, 0x3d, 0x2f, 0x2a}
    ensures InClass(OneOf("<>"), c) <==> c in {0x3c, 0x3e}
    ensures InClass(OneOf("="), c) <==> c == 0x3d
  {
    var ops, angles, equals := "-+=/*", "<>", "=";
    assert ops[0] == '-' && ops[1] == '+' && ops[2] == '=' && ops[3] == '/' && ops[4] == '*';
    assert angles[0] == '<' && angles[1] == '>' && equals[0] == '=';
  }

  lemma NameCharIs(c: byte)
    ensures InClass(NameChar(), c) <==> IsNameChar(c)
  {
    LetterIs(c);
    PunctuationIs(c);
  }

  lemma IdentifierIs(s: Bytes)
    ensures Matches(Then(Letter(), Many(NameChar())), s) <==>
              s != [] && IsAlpha(s[0]) && forall i | 1 <= i < |s| :: IsNameChar(s[i])
  {
    ThenMatches(Letter(), Many(NameChar()), s);
    if s != [] {
      LetterIs(s[0]);
      ManyMatches(NameChar(), s[1..]);
      forall i | 0 <= i < |s| - 1 ensures InClass(NameChar(), s[1..][i]) <==> IsNameChar(s[i + 1]) {
        NameCharIs(s[i + 1]);
      }
      assert forall i | 1 <= i < |s| :: s[i] == s[1..][i - 1];
    }
  }

  lemma OperatorIs(s: Bytes)
    ensures Matches(Either(OneOf("-+=/*"), Then(OneOf("<>"), Either(Nothing, OneOf("=")))), s) <==>
              || (|s| == 1 && s[0] in {0x2d, 0x2b, 0x3d, 0x2f, 0x2a})
              || (s != [] && s[0] in {0x3c, 0x3e} && (|s| == 1 || (|s| == 2 && s[1] == 0x3d)))
  {
    ClassMatches(OneOf("-+=/*"), s);
    ThenMatches(OneOf("<>"), Either(Nothing, OneOf("=")), s);
    if s != [] {
      OperatorsAre(s[0]);
      ClassMatches(OneOf("="), s[1..]);
      if |s| > 1 {
        OperatorsAre(s[1]);
      }
    }
  }

  /** The check of a Clarity name accepts exactly the words of its expression that have at most 128 bytes. */
  lemma ClarityNameIff(s: Bytes)
    ensures IsClarityName(s) <==> |s| <= 128 && Matches(ClarityNameRegex(), s)
  {
    IdentifierIs(s);
    OperatorIs(s);
  }

  /** And that of a contract name those of its own, and one name besides. */
  lemma ContractNameIff(s: Bytes)
    ensures IsContractName(s) <==> (|s| <= 128 && Matches(ContractNameRegex(), s)) || s == Spelled("__transient")
  {
    var item := Either(Alphanumeric(), OneOf("-_"));
    ThenMatches(Letter(), Many(item), s);
    if s != [] {
      LetterIs(s[0]);
      ManyMatches(item, s[1..]);
      forall i | 0 <= i < |s| - 1
        ensures InClass(item, s[1..][i]) <==> IsAlphanumeric(s[i + 1]) || s[i + 1] == 0x2d || s[i + 1] == 0x5f
      {
        LetterIs(s[i + 1]);
        PunctuationIs(s[i + 1]);
      }
      assert forall i | 1 <= i < |s| :: s[i] == s[1..][i - 1];
    }
    TransientIs();
  }

  lemma TransientIs()
    ensures TRANSIENT == Spelled("__transient")
  {
    var s := "__transient";
    assert |s| == 11 && s[0] == '_' && s[1] == '_' && s[2] == 't' && s[3] == 'r' && s[4] == 'a' && s[5] == 'n';
    assert s[6] == 's' && s[7] == 'i' && s[8] == 'e' && s[9] == 'n' && s[10] == 't';
  }
}
