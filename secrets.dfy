// src/config/secrets.rs: the entries of the secrets file and the selection of
// one of them by position or by code.  Reading and parsing the TOML file is
// not part of the model: the entries are passed in.

module Secrets {
  import opened Common
  import opened Decimal

  /** One entry of the secrets file.  `timestep` and `digits` are the
      per-entry settings the display reads from it. */
  datatype ConfigEntry = ConfigEntry(name: string, code: string, secret: string, timestep: u16, digits: u8)

  /** The text after one optional leading '+'. */
  function Unsigned(s: string): string {
    if |s| > 0 && s[0] == '+' then s[1..] else s
  }

  /** Whether `str::parse::<usize>` (on a 64-bit target) accepts `s`. */
  predicate IsUsize(s: string) {
    var t := Unsigned(s);
    |t| > 0 && IsDecimal(t) && ParseDecimal(t) < U64_LIMIT
  }

  /** `str::parse::<usize>`: an optional '+', then one or more decimal digits
      (leading zeros allowed) denoting a value that fits 64 bits. */
  function ParseUsize(s: string): (r: Option<u64>)
    ensures r.Some? <==> IsUsize(s)
    ensures r.Some? ==> r.value == ParseDecimal(Unsigned(s))
  {
    var t := Unsigned(s);
    if |t| > 0 && IsDecimal(t) && ParseDecimal(t) < U64_LIMIT then Some(ParseDecimal(t)) else None
  }

  /** Every index printed in decimal, with or without a '+', reads back. */
  lemma ParseUsizeOfDecimal(n: u64)
    ensures ParseUsize(NatToString(n)) == Some(n)
    ensures ParseUsize("+" + NatToString(n)) == Some(n)
  {
    ParseNatToString(n);
    var s := NatToString(n);
    assert s[0] != '+' by { assert IsDigitChar(s[0]); }
    assert Unsigned(s) == s;
    assert Unsigned("+" + s) == s;
  }

  /** A text holding anything but digits after the optional sign never reads
      as an index, so it is looked up as a code. */
  lemma NonDigitIsNotUsize(s: string, i: nat)
    requires i < |Unsigned(s)| && !IsDigitChar(Unsigned(s)[i])
    ensures ParseUsize(s).None?
  {
  }

  /** `Iterator::find`: the first entry whose code is `code`. */
  function FindByCode(entries: seq<ConfigEntry>, code: string): (r: Option<ConfigEntry>)
    ensures r.None? <==> forall e :: e in entries ==> e.code != code
    ensures r.Some? ==> exists i :: 0 <= i < |entries| && entries[i] == r.value && r.value.code == code &&
                          forall j :: 0 <= j < i ==> entries[j].code != code
  {
    if entries == [] then None
    else if entries[0].code == code then
      assert entries[0] == entries[0];
      Some(entries[0])
    else
      var r := FindByCode(entries[1..], code);
      assert forall e :: e in entries ==> e == entries[0] || e in entries[1..];
      if r.Some? then
        var i :| 0 <= i < |entries[1..]| && entries[1..][i] == r.value && r.value.code == code &&
                 forall j :: 0 <= j < i ==> entries[1..][j].code != code;
        assert entries[i + 1] == r.value;
        assert forall j :: 0 <= j < i + 1 ==> entries[j].code != code by {
          forall j | 0 <= j < i + 1 ensures entries[j].code != code {
            if j > 0 { assert entries[j] == entries[1..][j - 1]; }
          }
        }
        r
      else r
  }

  /** get_config without the file: an argument that reads as an index selects
      by position (and nothing when it is out of range, with no fallback to
      codes); any other argument selects the first entry with that code. */
  function GetConfig(entries: seq<ConfigEntry>, arg: string): (r: Option<ConfigEntry>)
    ensures IsUsize(arg) ==>
              (ParseUsize(arg).value < |entries| ==> r == Some(entries[ParseUsize(arg).value])) &&
              (ParseUsize(arg).value >= |entries| ==> r.None?)
    ensures !IsUsize(arg) ==> (r.None? <==> forall e :: e in entries ==> e.code != arg)
    ensures !IsUsize(arg) && r.Some? ==>
              exists i :: 0 <= i < |entries| && entries[i] == r.value && r.value.code == arg &&
                forall j :: 0 <= j < i ==> entries[j].code != arg
  {
    match ParseUsize(arg)
    case Some(index) => if index < |entries| then Some(entries[index]) else None
    case None => FindByCode(entries, arg)
  }
}
