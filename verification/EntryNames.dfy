/**
 Names of receipt entries: sixteen decimal digits, a hyphen, the receipt ID and ".json". The digits
 are what makes the sorted directory listing the commit order, as long as they do not overflow.
 */
module EntryNames {
  import opened Digits
  import opened Ordering
  import opened Outcomes

  const SEQUENCE_BOUND: nat := 10_000_000_000_000_000

  /** The digits of n, padded with zeros to at least sixteen. */
  function Padded(n: nat): string {
    if n < SEQUENCE_BOUND then Fixed(n, 16) else Padded(n / 10) + [DigitChar(n % 10)]
  }

  predicate IdChar(c: char) {
    'a' <= c <= 'z' || IsDigit(c) || c == '.' || c == '_' || c == '-'
  }

  predicate ValidId(id: string) {
    && 1 <= |id| <= 128
    && ('a' <= id[0] <= 'z' || IsDigit(id[0]))
    && forall i :: 0 <= i < |id| ==> IdChar(id[i])
  }

  /** A receipt ID has one to 128 characters of the codes of small letters, digits, and ".", "_" or "-"; a letter or digit comes first. */
  lemma ValidIdExactly(id: string)
    ensures ValidId(id) <==>
      && id != "" && |id| < 129 && (97 <= id[0] as int <= 122 || 48 <= id[0] as int <= 57)
      && forall i :: 0 <= i < |id| ==> 97 <= id[i] as int <= 122 || 48 <= id[i] as int <= 57 || id[i] as int in {45, 46, 95}
  {
  }

  function EntryName(sequence: nat, id: string): string {
    Padded(sequence) + "-" + id + ".json"
  }

  /** The sequence number and receipt ID a name spells, if it is an entry name at all. */
  function ParseName(name: string): Option<(nat, string)> {
    if |name| >= 23 && AllDigits(name[..16]) && name[16] == '-' && name[|name| - 5..] == ".json"
       && ValidId(name[17..|name| - 5])
    then Some((NatOf(name[..16]), name[17..|name| - 5]))
    else None
  }

  lemma SixteenDigits()
    ensures Power10(16) == SEQUENCE_BOUND
  {
    assert Power10(4) == 10_000;
    assert Power10(8) == 10_000 * Power10(4);
    assert Power10(12) == 10_000 * Power10(8);
    assert Power10(16) == 10_000 * Power10(12);
  }

  /** Names sort as their sequence numbers do, whatever the receipt IDs are. */
  lemma NamesSortBySequence(n: nat, m: nat, a: string, b: string)
    requires n < m < SEQUENCE_BOUND
    ensures StringLess(EntryName(n, a), EntryName(m, b))
  {
    SixteenDigits();
    var k := FirstDifference(n, m, 16);
    var s, t := EntryName(n, a), EntryName(m, b);
    assert s[..16] == Fixed(n, 16) && t[..16] == Fixed(m, 16);
    assert s[..k] == s[..16][..k] && t[..k] == t[..16][..k];
    assert Codes(s)[..k] == Codes(s[..k]) && Codes(t)[..k] == Codes(t[..k]);
    assert Codes(s)[k] == s[..16][k] as int && Codes(t)[k] == t[..16][k] as int;
    DecidedAt(Codes(s), Codes(t), k);
  }

  lemma NameReadsBack(n: nat, id: string)
    requires n < SEQUENCE_BOUND && ValidId(id)
    ensures ParseName(EntryName(n, id)) == Some((n, id))
  {
    SixteenDigits();
    FixedValue(n, 16);
    var name := EntryName(n, id);
    assert name[..16] == Fixed(n, 16);
    assert name[17..|name| - 5] == id;
    assert name[|name| - 5..] == ".json";
  }

  lemma ReadNameIsEntryName(name: string)
    requires ParseName(name).Some?
    ensures var (n, id) := ParseName(name).value;
      n < SEQUENCE_BOUND && ValidId(id) && name == EntryName(n, id)
  {
    SixteenDigits();
    ValueFixed(name[..16]);
    assert name == name[..16] + [name[16]] + name[17..|name| - 5] + name[|name| - 5..];
  }

  lemma {:induction false} PaddedOverflow(n: nat)
    requires n >= SEQUENCE_BOUND / 10
    ensures |Padded(n)| >= 16 && AllDigits(Padded(n))
    ensures n >= SEQUENCE_BOUND ==> |Padded(n)| >= 17
  {
    if n >= SEQUENCE_BOUND {
      PaddedOverflow(n / 10);
    }
  }

  /** A sequence number of ten to the sixteenth or more has a name the scan does not recognise. */
  lemma OverflowingNameUnreadable(n: nat, id: string)
    requires n >= SEQUENCE_BOUND
    ensures ParseName(EntryName(n, id)) == None
  {
    PaddedOverflow(n);
    assert EntryName(n, id)[16] == Padded(n)[16];
  }

  /** Sixteen digits that spell the number, a hyphen, the receipt ID and the suffix. */
  lemma NameForm(sequence: nat, id: string)
    requires sequence < SEQUENCE_BOUND
    ensures var name := EntryName(sequence, id);
      && |name| == 22 + |id| && AllDigits(name[..16]) && NatOf(name[..16]) == sequence
      && name[16..] == "-" + id + ".json"
  {
    SixteenDigits();
    FixedValue(sequence, 16);
    hide Fixed, NatOf;
    var digits := Fixed(sequence, 16);
    assert EntryName(sequence, id) == digits + ("-" + id + ".json");
  }
}
