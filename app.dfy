/**
 * The application layer: turning a snapshot of tailnet machines into the
 * desired DNS records (A/AAAA in the forward zone, PTR in the reverse zones)
 * and handing the combined list to the Bind client.
 */
module App {
  import opened Wrappers
  import opened Text
  import opened Net
  import Config
  import opened Bind
  import opened ZoneUpdate

  // ---------------------------------------------------------------------------
  // Host name sanitizing

  predicate IsAsciiLetter(c: char) { 'a' <= c <= 'z' || 'A' <= c <= 'Z' }

  predicate IsAlphanumeric(c: char) { IsAsciiLetter(c) || IsDigit(c) }

  /** The characters the sanitizer keeps: [a-zA-Z0-9.-]. */
  predicate IsNameChar(c: char) { IsAlphanumeric(c) || c == '.' || c == '-' }

  /** The characters a sanitized label is made of: lower-case letters, digits and '-'. */
  predicate IsLabelChar(c: char) { 'a' <= c <= 'z' || IsDigit(c) || c == '-' }

  /** No two hyphens in a row. */
  predicate NoDoubleHyphen(s: string)
  {
    forall i :: 0 <= i < |s| - 1 ==> !(s[i] == '-' && s[i + 1] == '-')
  }

  /** Only characters of [a-zA-Z0-9-]: what is left of a label after replacement. */
  predicate OnlyNameChars(s: string)
  {
    forall i :: 0 <= i < |s| ==> IsNameChar(s[i]) && s[i] != '.'
  }

  predicate OnlyHyphens(s: string)
  {
    forall i :: 0 <= i < |s| ==> s[i] == '-'
  }

  /** The text with its hyphens removed. */
  function WithoutHyphens(s: string): string
  {
    if s == [] then [] else (if s[0] == '-' then [] else [s[0]]) + WithoutHyphens(s[1..])
  }

  lemma WithoutHyphensCons(c: char, t: string)
    ensures WithoutHyphens([c] + t) == (if c == '-' then [] else [c]) + WithoutHyphens(t)
  {
    assert ([c] + t)[1..] == t;
  }

  /** The letters and digits of the text, in order. */
  function Alnums(s: string): string
  {
    if s == [] then [] else (if IsAlphanumeric(s[0]) then [s[0]] else []) + Alnums(s[1..])
  }

  /** Every character outside [a-zA-Z0-9.-] replaced by '-'. */
  function ReplaceInvalid(s: string): (r: string)
    ensures |r| == |s|
    ensures '.' !in s ==> OnlyNameChars(r)
    ensures (forall i :: 0 <= i < |s| ==> !IsAlphanumeric(s[i]) && s[i] != '.') ==> OnlyHyphens(r)
    ensures OnlyNameChars(s) ==> r == s
  {
    seq(|s|, i requires 0 <= i < |s| => if IsNameChar(s[i]) then s[i] else '-')
  }

  /** Every run of hyphens replaced by a single hyphen. */
  function CollapseHyphens(s: string): (r: string)
    ensures |s| > 0 ==> |r| > 0 && r[0] == s[0]
    ensures OnlyNameChars(s) ==> OnlyNameChars(r)
    ensures OnlyHyphens(s) ==> OnlyHyphens(r)
    ensures NoDoubleHyphen(r)
    ensures NoDoubleHyphen(s) ==> r == s
    ensures WithoutHyphens(r) == WithoutHyphens(s)
  {
    if |s| == 0 then []
    else if |s| >= 2 && s[0] == '-' && s[1] == '-' then CollapseHyphens(s[1..])
    else
      assert NoDoubleHyphen(s) ==> NoDoubleHyphen(s[1..]);
      var r := [s[0]] + CollapseHyphens(s[1..]);
      WithoutHyphensCons(s[0], CollapseHyphens(s[1..]));
      WithoutHyphensCons(s[0], s[1..]);
      r
  }

  /** One step of CollapseHyphens: a hyphen followed by a hyphen is dropped, any other character kept. */
  lemma CollapseCons(c: char, t: string)
    ensures CollapseHyphens([c] + t)
            == if c == '-' && |t| > 0 && t[0] == '-' then CollapseHyphens(t) else [c] + CollapseHyphens(t)
  {
    assert ([c] + t)[1..] == t;
  }

  /**
   * A run of hyphens keeps one hyphen: doubling a hyphen changes nothing.
   * With `NoDoubleHyphen(s) ==> r == s` this fixes the result for every text.
   */
  lemma {:induction false} CollapseShortensRun(a: string, b: string)
    ensures CollapseHyphens(a + "--" + b) == CollapseHyphens(a + "-" + b)
    decreases |a|
  {
    var one := "-" + b;
    var two := "--" + b;
    if a == [] {
      assert a + "--" + b == ['-'] + one && a + "-" + b == one;
      CollapseCons('-', one);
    } else if a == "-" {
      assert a + "--" + b == ['-'] + two && a + "-" + b == two;
      CollapseCons('-', two);
    } else {
      var t2 := a[1..] + "--" + b;
      var t1 := a[1..] + "-" + b;
      assert a + "--" + b == [a[0]] + t2 && a + "-" + b == [a[0]] + t1;
      assert t2[0] == t1[0];
      CollapseShortensRun(a[1..], b);
      CollapseCons(a[0], t2);
      CollapseCons(a[0], t1);
    }
  }

  /** The characters strings.Trim removes for the cutset "-.". */
  predicate IsTrimmed(c: char) { c == '-' || c == '.' }

  /** strings.TrimLeft(s, "-."). */
  function TrimLeft(s: string): (r: string)
    ensures |r| <= |s| && r == s[|s| - |r|..]
    ensures forall i :: 0 <= i < |s| - |r| ==> IsTrimmed(s[i])
    ensures |r| > 0 ==> !IsTrimmed(r[0])
    ensures |s| > 0 && !IsTrimmed(s[0]) ==> r == s
  {
    if |s| > 0 && IsTrimmed(s[0]) then
      var r := TrimLeft(s[1..]);
      assert forall i :: 1 <= i < |s| ==> s[i] == s[1..][i - 1];
      assert s[1..][|s| - 1 - |r|..] == s[|s| - |r|..];
      r
    else s
  }

  /** strings.TrimRight(s, "-."). */
  function TrimRight(s: string): (r: string)
    ensures |r| <= |s| && r == s[..|r|]
    ensures forall i :: |r| <= i < |s| ==> IsTrimmed(s[i])
    ensures |r| > 0 ==> !IsTrimmed(r[|r| - 1])
    ensures |s| > 0 && !IsTrimmed(s[|s| - 1]) ==> r == s
  {
    if |s| > 0 && IsTrimmed(s[|s| - 1]) then
      var r := TrimRight(s[..|s| - 1]);
      assert forall i :: 0 <= i < |s| - 1 ==> s[i] == s[..|s| - 1][i];
      assert s[..|s| - 1][..|r|] == s[..|r|];
      r
    else s
  }

  /** `r` is the piece of `s` starting at `l`, and only hyphens and dots lie outside it. */
  predicate TrimmedAt(s: string, r: string, l: int)
  {
    && 0 <= l <= |s| - |r| && r == s[l..l + |r|]
    && (forall i :: 0 <= i < l ==> IsTrimmed(s[i]))
    && (forall i :: l + |r| <= i < |s| ==> IsTrimmed(s[i]))
  }

  /** strings.Trim(s, "-."): hyphens and dots removed from both ends. */
  function Trim(s: string): (r: string)
    ensures |r| > 0 ==> !IsTrimmed(r[0]) && !IsTrimmed(r[|r| - 1])
    ensures OnlyNameChars(s) ==> OnlyNameChars(r)
    ensures OnlyHyphens(s) ==> r == []
    ensures NoDoubleHyphen(s) ==> NoDoubleHyphen(r)
    ensures |s| > 0 && !IsTrimmed(s[0]) && !IsTrimmed(s[|s| - 1]) ==> r == s
  {
    TrimRight(TrimLeft(s))
  }

  /** Trim removes hyphens and dots from the ends and nothing else: what is left is a piece of the text. */
  lemma TrimKeepsMiddle(s: string)
    ensures exists l :: TrimmedAt(s, Trim(s), l)
  {
    var left := TrimLeft(s);
    var r := Trim(s);
    var l := |s| - |left|;
    assert |r| > 0 ==> r[0] == s[l];
    assert TrimmedAt(s, r, l);
  }

  function LowerChar(c: char): char
  {
    if 'A' <= c <= 'Z' then (c as int + 32) as char else c
  }

  /** strings.ToLower on text that is plain ASCII by this point. */
  function AsciiLower(s: string): (r: string)
    ensures |r| == |s|
    ensures forall i :: 0 <= i < |s| ==> (r[i] == '-' <==> s[i] == '-')
    ensures OnlyNameChars(s) ==> forall i :: 0 <= i < |r| ==> IsLabelChar(r[i])
    ensures (forall i :: 0 <= i < |s| ==> IsLabelChar(s[i])) ==> r == s
  {
    seq(|s|, i requires 0 <= i < |s| => LowerChar(s[i]))
  }

  /** The placeholder label used when nothing of the name survives. */
  const FallbackName: string := "machine"

  /**
   * sanitizeDNSName: the first dot-separated label of the name, invalid
   * characters replaced by '-', hyphen runs collapsed, hyphens and dots
   * trimmed from both ends, "machine" if nothing is left, lower-cased. The
   * result is a non-empty label of lower-case letters, digits and single
   * inner hyphens.
   */
  function SanitizeDNSName(name: string): (r: string)
    ensures |r| >= 1
    ensures forall i :: 0 <= i < |r| ==> IsLabelChar(r[i])
    ensures r[0] != '-' && r[|r| - 1] != '-'
    ensures NoDoubleHyphen(r)
  {
    var hostname := Split(name, '.')[0];
    var collapsed := CollapseHyphens(ReplaceInvalid(hostname));
    assert OnlyNameChars(collapsed) && NoDoubleHyphen(collapsed);
    var trimmed := Trim(collapsed);
    var nonEmpty := if trimmed == "" then FallbackName else trimmed;
    assert OnlyNameChars(nonEmpty) && NoDoubleHyphen(nonEmpty);
    LowerLabel(nonEmpty);
    AsciiLower(nonEmpty)
  }

  /** Lower-casing a label of letters, digits and single inner hyphens keeps it one. */
  lemma LowerLabel(s: string)
    requires |s| >= 1 && OnlyNameChars(s) && NoDoubleHyphen(s)
    requires s[0] != '-' && s[|s| - 1] != '-'
    ensures var r := AsciiLower(s);
      && |r| >= 1 && (forall i :: 0 <= i < |r| ==> IsLabelChar(r[i]))
      && r[0] != '-' && r[|r| - 1] != '-' && NoDoubleHyphen(r)
  {
    var r := AsciiLower(s);
    assert r[|r| - 1] == '-' <==> s[|s| - 1] == '-';
  }

  /** Sanitizing a sanitized name changes nothing. */
  lemma SanitizeIdempotent(name: string)
    ensures SanitizeDNSName(SanitizeDNSName(name)) == SanitizeDNSName(name)
  {
    var r := SanitizeDNSName(name);
    assert OnlyNameChars(r);
    assert '.' !in r;
    SplitWithoutSeparator(r, '.');
  }

  /** Only the label before the first dot matters: a domain part is dropped. */
  lemma SanitizeDropsDomain(host: string, domain: string)
    requires '.' !in host
    ensures SanitizeDNSName(host + "." + domain) == SanitizeDNSName(host)
  {
    SplitAfterFirst(host, '.', domain);
    SplitWithoutSeparator(host, '.');
  }

  /**
   * A single label of letters, digits and single inner hyphens comes out
   * lower-cased and otherwise as written.
   */
  lemma SanitizeLowersLabel(name: string)
    requires |name| >= 1 && OnlyNameChars(name) && NoDoubleHyphen(name)
    requires name[0] != '-' && name[|name| - 1] != '-'
    ensures SanitizeDNSName(name) == AsciiLower(name)
  {
    assert '.' !in name by {
      forall i | 0 <= i < |name|
        ensures name[i] != '.'
      {
      }
    }
    SplitWithoutSeparator(name, '.');
  }

  /** A name that is already a valid lower-case label is kept as it is. */
  lemma SanitizeKeepsValidName(name: string)
    requires |name| >= 1 && (forall i :: 0 <= i < |name| ==> IsLabelChar(name[i])) && NoDoubleHyphen(name)
    requires name[0] != '-' && name[|name| - 1] != '-'
    ensures SanitizeDNSName(name) == name
  {
    assert OnlyNameChars(name);
    SanitizeLowersLabel(name);
  }

  lemma {:induction false} AlnumsConcat(a: string, b: string)
    ensures Alnums(a + b) == Alnums(a) + Alnums(b)
  {
    if a != [] {
      assert (a + b)[0] == a[0] && (a + b)[1..] == a[1..] + b;
      AlnumsConcat(a[1..], b);
    } else {
      assert a + b == b;
    }
  }

  lemma {:induction false} AlnumsNone(s: string)
    requires forall i :: 0 <= i < |s| ==> !IsAlphanumeric(s[i])
    ensures Alnums(s) == []
  {
    if s != [] {
      AlnumsNone(s[1..]);
    }
  }

  /** Two texts of one length that agree wherever either has a letter or digit have the same letters and digits. */
  lemma {:induction false} AlnumsAgree(a: string, b: string)
    requires |a| == |b|
    requires forall i :: 0 <= i < |a| && (IsAlphanumeric(a[i]) || IsAlphanumeric(b[i])) ==> a[i] == b[i]
    ensures Alnums(a) == Alnums(b)
  {
    if a != [] {
      AlnumsAgree(a[1..], b[1..]);
    }
  }

  /** Replacing invalid characters keeps every letter and digit. */
  lemma AlnumsReplace(s: string)
    ensures Alnums(ReplaceInvalid(s)) == Alnums(s)
  {
    AlnumsAgree(ReplaceInvalid(s), s);
  }

  lemma {:induction false} AlnumsWithoutHyphens(s: string)
    ensures Alnums(WithoutHyphens(s)) == Alnums(s)
  {
    if s != [] {
      AlnumsWithoutHyphens(s[1..]);
      AlnumsConcat(if s[0] == '-' then [] else [s[0]], WithoutHyphens(s[1..]));
    }
  }

  /** Collapsing hyphen runs keeps every letter and digit. */
  lemma AlnumsCollapse(s: string)
    ensures Alnums(CollapseHyphens(s)) == Alnums(s)
  {
    AlnumsWithoutHyphens(CollapseHyphens(s));
    AlnumsWithoutHyphens(s);
  }

  lemma AlnumsTrimmedAt(s: string, r: string, l: int)
    requires TrimmedAt(s, r, l)
    ensures Alnums(r) == Alnums(s)
  {
    var head := s[..l];
    var tail := s[l + |r|..];
    assert forall i :: 0 <= i < |head| ==> head[i] == s[i];
    assert forall i :: 0 <= i < |tail| ==> tail[i] == s[l + |r| + i];
    AlnumsNone(head);
    AlnumsNone(tail);
    assert s == head + r + tail;
    AlnumsConcat(head + r, tail);
    AlnumsConcat(head, r);
  }

  /** Trimming hyphens and dots keeps every letter and digit. */
  lemma AlnumsTrim(s: string)
    ensures Alnums(Trim(s)) == Alnums(s)
  {
    var r := Trim(s);
    TrimKeepsMiddle(s);
    var l :| TrimmedAt(s, r, l);
    AlnumsTrimmedAt(s, r, l);
  }

  lemma AsciiLowerConcat(a: string, b: string)
    ensures AsciiLower(a + b) == AsciiLower(a) + AsciiLower(b)
  {
    assert forall i :: 0 <= i < |a + b| ==> AsciiLower(a + b)[i] == (AsciiLower(a) + AsciiLower(b))[i];
  }

  /** Lower-casing and then keeping the letters and digits is keeping them and then lower-casing. */
  lemma {:induction false} AlnumsLower(s: string)
    ensures Alnums(AsciiLower(s)) == AsciiLower(Alnums(s))
  {
    if s != [] {
      var head := if IsAlphanumeric(s[0]) then [s[0]] else [];
      AlnumsLower(s[1..]);
      assert AsciiLower(s)[0] == LowerChar(s[0]) && AsciiLower(s)[1..] == AsciiLower(s[1..]);
      AsciiLowerConcat(head, Alnums(s[1..]));
    }
  }

  /**
   * Whenever the first label has a letter or digit, exactly its letters and
   * digits survive sanitizing, in order and lower-cased.
   */
  lemma SanitizeKeepsAlphanumerics(name: string)
    requires Alnums(Split(name, '.')[0]) != []
    ensures Alnums(SanitizeDNSName(name)) == AsciiLower(Alnums(Split(name, '.')[0]))
  {
    var hostname := Split(name, '.')[0];
    var replaced := ReplaceInvalid(hostname);
    var collapsed := CollapseHyphens(replaced);
    var trimmed := Trim(collapsed);
    AlnumsReplace(hostname);
    AlnumsCollapse(replaced);
    AlnumsTrim(collapsed);
    assert trimmed != [];
    AlnumsLower(trimmed);
  }

  /** A first label without any letter or digit sanitizes to the placeholder "machine". */
  lemma SanitizeFallback(name: string)
    requires forall i :: 0 <= i < |Split(name, '.')[0]| ==> !IsAlphanumeric(Split(name, '.')[0][i])
    ensures SanitizeDNSName(name) == FallbackName
  {
    assert forall i :: 0 <= i < |FallbackName| ==> IsLabelChar(FallbackName[i]);
  }

  // ---------------------------------------------------------------------------
  // Machines and the application

  /** A tailnet device as the poller reports it (its last-seen time is not used here). */
  datatype Machine = Machine(id: string, name: string, ipv4Address: string, ipv6Address: string, online: bool)

  /** The application: its configuration and the Bind client built from it. */
  datatype App = App(config: Config.Config, bindClient: Client)

  /** NewApp builds the Bind client from the configuration's Bind section and a pointer to its PTR section. */
  predicate Wired(a: App)
  {
    var b := a.config.bind;
    NewClient(b.server, b.port, b.zone, b.keyName, b.keySecret, b.algorithm, b.ttl, Some(b.ptr)) == Success(a.bindClient)
  }

  /** The record name of a machine: its name, or its ID when the name is empty, sanitized. */
  function RecordName(m: Machine): string
  {
    SanitizeDNSName(if m.name != "" then m.name else m.id)
  }

  function ARecord(m: Machine, ttl: nat): DNSRecord
  {
    DNSRecord(RecordName(m), m.ipv4Address, ttl, "A")
  }

  function AAAARecord(m: Machine, ttl: nat): DNSRecord
  {
    DNSRecord(RecordName(m), m.ipv6Address, ttl, "AAAA")
  }

  /** The forward records of one machine: none when offline, else A then AAAA for each address it has. */
  function MachineRecords(m: Machine, ttl: nat): seq<DNSRecord>
  {
    if !m.online then []
    else (if m.ipv4Address != "" then [ARecord(m, ttl)] else []) + (if m.ipv6Address != "" then [AAAARecord(m, ttl)] else [])
  }

  /** The forward records machinesToRecords produces, machine by machine. */
  function ForwardRecords(machines: seq<Machine>, ttl: nat): seq<DNSRecord>
  {
    if |machines| == 0 then []
    else ForwardRecords(machines[..|machines| - 1], ttl) + MachineRecords(machines[|machines| - 1], ttl)
  }

  lemma ForwardRecordsStep(machines: seq<Machine>, ttl: nat, i: nat)
    requires i < |machines|
    ensures ForwardRecords(machines[..i + 1], ttl) == ForwardRecords(machines[..i], ttl) + MachineRecords(machines[i], ttl)
  {
    assert machines[..i + 1][..i] == machines[..i];
  }

  /** The record-name lines both loops share: name, else ID, then sanitized. */
  method MachineRecordName(machine: Machine) returns (recordName: string)
    ensures recordName == RecordName(machine)
  {
    recordName := machine.name;
    if recordName == "" {
      recordName := machine.id;
    }
    recordName := SanitizeDNSName(recordName);
  }

  /** machinesToRecords: an A and an AAAA record per online machine and address, with the configured TTL in whole seconds. */
  method MachinesToRecords(a: App, machines: seq<Machine>) returns (records: seq<DNSRecord>)
    ensures records == ForwardRecords(machines, Config.WholeSeconds(a.config.bind.ttl))
  {
    var ttl := Config.WholeSeconds(a.config.bind.ttl);
    records := [];
    var i := 0;
    while i < |machines|
      invariant 0 <= i <= |machines|
      invariant records == ForwardRecords(machines[..i], ttl)
    {
      var machine := machines[i];
      ForwardRecordsStep(machines, ttl, i);
      ghost var before := records;
      i := i + 1;
      if !machine.online {
        continue;
      }
      var recordName := MachineRecordName(machine);
      if machine.ipv4Address != "" {
        records := records + [DNSRecord(recordName, machine.ipv4Address, ttl, "A")];
      }
      if machine.ipv6Address != "" {
        records := records + [DNSRecord(recordName, machine.ipv6Address, ttl, "AAAA")];
      }
      assert records == before + MachineRecords(machine, ttl);
    }
    assert machines[..|machines|] == machines;
  }

  /** The number of online machines with a non-empty IPv4 (`v6` false) or IPv6 (`v6` true) address. */
  function CountAddressed(machines: seq<Machine>, v6: bool): nat
  {
    if |machines| == 0 then 0
    else
      var m := machines[|machines| - 1];
      var has := m.online && (if v6 then m.ipv6Address != "" else m.ipv4Address != "");
      CountAddressed(machines[..|machines| - 1], v6) + (if has then 1 else 0)
  }

  /** One record per online machine and address: as many records as online IPv4 plus online IPv6 addresses. */
  lemma {:induction false} ForwardRecordsCount(machines: seq<Machine>, ttl: nat)
    ensures |ForwardRecords(machines, ttl)| == CountAddressed(machines, false) + CountAddressed(machines, true)
  {
    if |machines| > 0 {
      ForwardRecordsCount(machines[..|machines| - 1], ttl);
    }
  }

  /** The record comes from an online machine of the list: its A record or its AAAA record. */
  predicate ForwardOrigin(machines: seq<Machine>, ttl: nat, r: DNSRecord)
  {
    exists m :: m in machines && m.online
      && ((m.ipv4Address != "" && r == ARecord(m, ttl)) || (m.ipv6Address != "" && r == AAAARecord(m, ttl)))
  }

  /**
   * The forward records are exactly the A records of online machines with an
   * IPv4 address and the AAAA records of online machines with an IPv6 address.
   */
  lemma {:induction false} ForwardRecordsExact(machines: seq<Machine>, ttl: nat)
    ensures forall r :: r in ForwardRecords(machines, ttl) ==> ForwardOrigin(machines, ttl, r)
    ensures forall m :: m in machines && m.online && m.ipv4Address != "" ==> ARecord(m, ttl) in ForwardRecords(machines, ttl)
    ensures forall m :: m in machines && m.online && m.ipv6Address != "" ==> AAAARecord(m, ttl) in ForwardRecords(machines, ttl)
  {
    if |machines| > 0 {
      var prefix := machines[..|machines| - 1];
      var last := machines[|machines| - 1];
      assert machines == prefix + [last];
      ForwardRecordsExact(prefix, ttl);
      forall r | r in ForwardRecords(machines, ttl)
        ensures ForwardOrigin(machines, ttl, r)
      {
        if r in ForwardRecords(prefix, ttl) {
          var m :| m in prefix && m.online
            && ((m.ipv4Address != "" && r == ARecord(m, ttl)) || (m.ipv6Address != "" && r == AAAARecord(m, ttl)));
          assert m in machines;
        } else {
          assert r in MachineRecords(last, ttl);
          assert last in machines;
        }
      }
    }
  }

  // ---------------------------------------------------------------------------
  // PTR records

  /** The host name a machine's PTR records point at: its record name in the forward zone. */
  function PtrHost(a: App, m: Machine): string
  {
    RecordName(m) + "." + a.config.bind.zone
  }

  /** The outcome of asking for the PTR record of one address; an empty address is not asked for. */
  function PtrAttempt(c: Client, address: string, host: string): Result<Option<DNSRecord>, PtrError>
  {
    if address == "" then Success(None) else CreatePTRRecord(c, address, host)
  }

  /** The record an attempt contributes: the record it made, or nothing. */
  function Made(attempt: Result<Option<DNSRecord>, PtrError>): seq<DNSRecord>
  {
    if attempt.Success? && attempt.value.Some? then [attempt.value.value] else []
  }

  /**
   * The PTR records of one machine: none when offline; an error on the IPv4
   * address ends the machine (its IPv6 address is not tried); an error on the
   * IPv6 address drops only that record.
   */
  function MachinePtrRecords(c: Client, host: string, m: Machine): seq<DNSRecord>
  {
    if !m.online then []
    else
      var v4 := PtrAttempt(c, m.ipv4Address, host);
      if v4.Failure? then [] else Made(v4) + Made(PtrAttempt(c, m.ipv6Address, host))
  }

  /** The PTR records createPTRRecords produces: none when the configuration turns them off. */
  function PtrRecords(a: App, machines: seq<Machine>): seq<DNSRecord>
  {
    if !a.config.bind.ptr.enabled || |machines| == 0 then []
    else
      var last := machines[|machines| - 1];
      PtrRecords(a, machines[..|machines| - 1]) + MachinePtrRecords(a.bindClient, PtrHost(a, last), last)
  }

  lemma PtrRecordsStep(a: App, machines: seq<Machine>, i: nat)
    requires a.config.bind.ptr.enabled && i < |machines|
    ensures PtrRecords(a, machines[..i + 1])
            == PtrRecords(a, machines[..i]) + MachinePtrRecords(a.bindClient, PtrHost(a, machines[i]), machines[i])
  {
    assert machines[..i + 1][..i] == machines[..i];
  }

  /**
   * The body of createPTRRecords' loop for one machine: the PTR records it
   * appends, where `return` stands for the loop's `continue`.
   */
  method MachinePtr(a: App, machine: Machine) returns (recs: seq<DNSRecord>)
    ensures recs == MachinePtrRecords(a.bindClient, PtrHost(a, machine), machine)
  {
    recs := [];
    if !machine.online {
      return;
    }
    var recordName := MachineRecordName(machine);
    var host := recordName + "." + a.config.bind.zone;
    ghost var v4 := PtrAttempt(a.bindClient, machine.ipv4Address, host);
    ghost var v6 := PtrAttempt(a.bindClient, machine.ipv6Address, host);
    if machine.ipv4Address != "" {
      var ptrRecord := CreatePTRRecord(a.bindClient, machine.ipv4Address, host);
      assert ptrRecord == v4;
      if ptrRecord.Failure? {
        assert MachinePtrRecords(a.bindClient, host, machine) == [];
        return;
      }
      if ptrRecord.value.Some? {
        recs := recs + [ptrRecord.value.value];
      }
    }
    assert recs == Made(v4);
    if machine.ipv6Address != "" {
      var ptrRecord := CreatePTRRecord(a.bindClient, machine.ipv6Address, host);
      assert ptrRecord == v6;
      if ptrRecord.Failure? {
        assert Made(v6) == [];
        assert MachinePtrRecords(a.bindClient, host, machine) == recs + Made(v6);
        return;
      }
      if ptrRecord.value.Some? {
        recs := recs + [ptrRecord.value.value];
      }
      assert recs == Made(v4) + Made(v6);
    } else {
      assert Made(v6) == [];
    }
    assert MachinePtrRecords(a.bindClient, host, machine) == Made(v4) + Made(v6);
  }

  /** createPTRRecords: asks the Bind client for a PTR record per online machine and address, skipping failures. */
  method CreatePTRRecords(a: App, machines: seq<Machine>) returns (ptrRecords: seq<DNSRecord>)
    ensures ptrRecords == PtrRecords(a, machines)
  {
    ptrRecords := [];
    if !a.config.bind.ptr.enabled {
      return;
    }
    var i := 0;
    while i < |machines|
      invariant 0 <= i <= |machines|
      invariant ptrRecords == PtrRecords(a, machines[..i])
    {
      PtrRecordsStep(a, machines, i);
      var recs := MachinePtr(a, machines[i]);
      ptrRecords := ptrRecords + recs;
      i := i + 1;
    }
    assert machines[..|machines|] == machines;
  }

  /** A machine's PTR records are what CreatePTRRecord made for its non-empty addresses, and it is online. */
  lemma MachinePtrRecordsSound(c: Client, host: string, m: Machine, r: DNSRecord)
    requires r in MachinePtrRecords(c, host, m)
    ensures m.online
    ensures || (m.ipv4Address != "" && CreatePTRRecord(c, m.ipv4Address, host) == Success(Some(r)))
            || (m.ipv6Address != "" && CreatePTRRecord(c, m.ipv6Address, host) == Success(Some(r)))
  {
    var v4 := PtrAttempt(c, m.ipv4Address, host);
    var v6 := PtrAttempt(c, m.ipv6Address, host);
    assert r in Made(v4) || r in Made(v6);
  }

  /**
   * Every record CreatePTRRecord makes for an online machine is among its PTR
   * records, unless its IPv4 attempt failed, which drops its IPv6 record too.
   */
  lemma MachinePtrRecordsComplete(c: Client, host: string, m: Machine)
    requires m.online
    requires m.ipv4Address == "" || CreatePTRRecord(c, m.ipv4Address, host).Success?
    ensures forall r :: m.ipv4Address != "" && CreatePTRRecord(c, m.ipv4Address, host) == Success(Some(r))
                        ==> r in MachinePtrRecords(c, host, m)
    ensures forall r :: m.ipv6Address != "" && CreatePTRRecord(c, m.ipv6Address, host) == Success(Some(r))
                        ==> r in MachinePtrRecords(c, host, m)
  {
    var v4 := PtrAttempt(c, m.ipv4Address, host);
    var v6 := PtrAttempt(c, m.ipv6Address, host);
    assert MachinePtrRecords(c, host, m) == Made(v4) + Made(v6);
  }

  /** The record is one of the PTR records of a machine of the list. */
  predicate PtrOrigin(a: App, machines: seq<Machine>, r: DNSRecord)
  {
    exists m :: m in machines && r in MachinePtrRecords(a.bindClient, PtrHost(a, m), m)
  }

  /** Every PTR record is one of some listed machine's, and there are none unless the configuration enables them. */
  lemma {:induction false} PtrRecordsSound(a: App, machines: seq<Machine>)
    ensures forall r :: r in PtrRecords(a, machines) ==> a.config.bind.ptr.enabled && PtrOrigin(a, machines, r)
  {
    if a.config.bind.ptr.enabled && |machines| > 0 {
      var prefix := machines[..|machines| - 1];
      var last := machines[|machines| - 1];
      PtrRecordsSound(a, prefix);
      forall r | r in PtrRecords(a, machines)
        ensures PtrOrigin(a, machines, r)
      {
        if r in PtrRecords(a, prefix) {
          var m :| m in prefix && r in MachinePtrRecords(a.bindClient, PtrHost(a, m), m);
          assert m in machines;
        } else {
          assert last in machines;
        }
      }
    }
  }

  /** With PTR records enabled, every PTR record of every listed machine is produced. */
  lemma {:induction false} PtrRecordsComplete(a: App, machines: seq<Machine>, m: Machine)
    requires a.config.bind.ptr.enabled && m in machines
    ensures forall r :: r in MachinePtrRecords(a.bindClient, PtrHost(a, m), m) ==> r in PtrRecords(a, machines)
  {
    var prefix := machines[..|machines| - 1];
    var last := machines[|machines| - 1];
    assert machines == prefix + [last];
    if m in prefix {
      PtrRecordsComplete(a, prefix, m);
    }
  }

  // ---------------------------------------------------------------------------
  // Building the application and converting one batch

  /** Why NewApp fails on the Bind side: the Bind client could not be built. */
  datatype AppError = BindClientFailed(cause: ClientError)

  /**
   * NewApp, Bind half: the client is built from the Bind section and the PTR
   * section; it fails exactly when a required Bind field is empty.
   */
  function NewApp(cfg: Config.Config): (r: Result<App, AppError>)
    ensures r.Failure? <==> cfg.bind.server == "" || cfg.bind.zone == "" || cfg.bind.keyName == "" || cfg.bind.keySecret == ""
    ensures r.Success? ==> && Wired(r.value) && r.value.config == cfg
                           && r.value.bindClient.zone == cfg.bind.zone
                           && r.value.bindClient.ptrConfig == Some(cfg.bind.ptr)
                           && r.value.bindClient.ttl == Config.WholeSeconds(cfg.bind.ttl)
  {
    var b := cfg.bind;
    match NewClient(b.server, b.port, b.zone, b.keyName, b.keySecret, b.algorithm, b.ttl, Some(b.ptr))
    case Failure(e) => Failure(BindClientFailed(e))
    case Success(c) => Success(App(cfg, c))
  }

  /** A configuration that validates always yields an application. */
  lemma ValidatedConfigBuildsApp(cfg: Config.Config)
    requires Config.Validate(cfg).Pass?
    ensures NewApp(cfg).Success?
  {
    ValidatedConfigBuildsClient(cfg);
  }

  /** The list convertMachinesToRecords forwards for one batch: A/AAAA records first, then PTR records. */
  function SnapshotRecords(a: App, machines: seq<Machine>): seq<DNSRecord>
  {
    ForwardRecords(machines, Config.WholeSeconds(a.config.bind.ttl)) + PtrRecords(a, machines)
  }

  /** Some online machine has an address. */
  predicate HasAddressedMachine(machines: seq<Machine>)
  {
    exists m :: m in machines && m.online && (m.ipv4Address != "" || m.ipv6Address != "")
  }

  /** There are forward records exactly when some online machine has an address. */
  lemma ForwardNonEmpty(machines: seq<Machine>, ttl: nat)
    ensures |ForwardRecords(machines, ttl)| > 0 <==> HasAddressedMachine(machines)
  {
    var forward := ForwardRecords(machines, ttl);
    ForwardRecordsExact(machines, ttl);
    if |forward| > 0 {
      assert forward[0] in forward;
    }
    if HasAddressedMachine(machines) {
      var m :| m in machines && m.online && (m.ipv4Address != "" || m.ipv6Address != "");
      if m.ipv4Address != "" {
        assert ARecord(m, ttl) in forward;
      } else {
        assert AAAARecord(m, ttl) in forward;
      }
    }
  }

  /** PTR records exist only when some online machine has an address. */
  lemma PtrNonEmpty(a: App, machines: seq<Machine>)
    requires |PtrRecords(a, machines)| > 0
    ensures HasAddressedMachine(machines)
  {
    var ptr := PtrRecords(a, machines);
    PtrRecordsSound(a, machines);
    var r := ptr[0];
    assert r in ptr;
    var m :| m in machines && r in MachinePtrRecords(a.bindClient, PtrHost(a, m), m);
    MachinePtrRecordsSound(a.bindClient, PtrHost(a, m), m, r);
  }

  /** A batch yields records exactly when some online machine has an address. */
  lemma SnapshotNonEmpty(a: App, machines: seq<Machine>)
    ensures |SnapshotRecords(a, machines)| > 0 <==> HasAddressedMachine(machines)
  {
    ForwardNonEmpty(machines, Config.WholeSeconds(a.config.bind.ttl));
    if |PtrRecords(a, machines)| > 0 {
      PtrNonEmpty(a, machines);
    }
  }

  /**
   * One pass of convertMachinesToRecords' loop: the combined records of the
   * batch, or None when there is nothing to send on.
   */
  method ConvertMachines(a: App, machines: seq<Machine>) returns (batch: Option<seq<DNSRecord>>)
    ensures batch.Some? <==> HasAddressedMachine(machines)
    ensures batch.Some? ==> batch.value == SnapshotRecords(a, machines)
  {
    var records := MachinesToRecords(a, machines);
    var ptrRecords := CreatePTRRecords(a, machines);
    var allRecords := records + ptrRecords;
    SnapshotNonEmpty(a, machines);
    if |allRecords| > 0 {
      batch := Some(allRecords);
    } else {
      batch := None;
    }
  }

  // ---------------------------------------------------------------------------
  // From machines to zone updates

  /** Addresses as the tailnet reports them: a dotted quad, IPv6 text, or missing. */
  predicate WellFormedAddresses(m: Machine)
  {
    && (m.ipv4Address == "" || ParseDottedQuad(m.ipv4Address).Some?)
    && (m.ipv6Address == "" || IsIPv6Text(m.ipv6Address))
  }

  /** `zone` is the reverse zone getPTRZoneForIP names for one of the machine's addresses. */
  predicate ReverseZoneOfMachine(a: App, m: Machine, zone: string)
  {
    && a.bindClient.ptrConfig.Some?
    && (|| (m.ipv4Address != "" && GetPTRZoneForIP(a.bindClient, m.ipv4Address, false) == Success(zone))
        || (m.ipv6Address != "" && GetPTRZoneForIP(a.bindClient, m.ipv6Address, true) == Success(zone)))
  }

  /** The PTR record of an in-subnet dotted quad goes to the zone getPTRZoneForIP names for it, with the configured TTL. */
  lemma IPv4RecordRouted(cfg: Config.Config, a: App, ipStr: string, host: string, r: DNSRecord)
    requires Config.Validate(cfg).Pass? && NewApp(cfg) == Success(a)
    requires ParseDottedQuad(ipStr).Some? && CreatePTRRecord(a.bindClient, ipStr, host) == Success(Some(r))
    ensures r.rtype == "PTR" && r.ttl == Config.WholeSeconds(cfg.bind.ttl)
    ensures a.bindClient.ptrConfig.Some? && GetPTRZoneForIP(a.bindClient, ipStr, false) == Success(ZoneOf(a.bindClient, r))
    ensures ZoneOf(a.bindClient, r) != ""
  {
    var c := a.bindClient;
    DottedQuadPtrRecord(c, ipStr, host);
    IPv4PtrRecordRouting(c, ipStr, host);
    assert HasSuffix(ZoneOf(c, r), IPv4ZoneSuffix);
  }

  /** The PTR record of in-subnet IPv6 text goes to the zone getPTRZoneForIP names for it, with the configured TTL. */
  lemma IPv6RecordRouted(cfg: Config.Config, a: App, ipStr: string, host: string, r: DNSRecord)
    requires Config.Validate(cfg).Pass? && NewApp(cfg) == Success(a)
    requires IsIPv6Text(ipStr) && CreatePTRRecord(a.bindClient, ipStr, host) == Success(Some(r))
    ensures r.rtype == "PTR" && r.ttl == Config.WholeSeconds(cfg.bind.ttl)
    ensures a.bindClient.ptrConfig.Some? && GetPTRZoneForIP(a.bindClient, ipStr, true) == Success(ZoneOf(a.bindClient, r))
    ensures ZoneOf(a.bindClient, r) != ""
  {
    var c := a.bindClient;
    IPv6PtrRecordRouting(c, ipStr, host);
    assert HasSuffix(ZoneOf(c, r), IPv6ZoneSuffix);
  }

  /**
   * Under a validated configuration every PTR record of a well-formed machine
   * is filed under the reverse zone getPTRZoneForIP names for its address,
   * which is never "", and carries the client's TTL.
   */
  lemma PtrRecordRouted(cfg: Config.Config, a: App, machines: seq<Machine>, r: DNSRecord)
    requires Config.Validate(cfg).Pass? && NewApp(cfg) == Success(a)
    requires forall m :: m in machines ==> WellFormedAddresses(m)
    requires r in PtrRecords(a, machines)
    ensures r.rtype == "PTR" && r.ttl == Config.WholeSeconds(cfg.bind.ttl)
    ensures exists m :: m in machines && m.online && ReverseZoneOfMachine(a, m, ZoneOf(a.bindClient, r))
    ensures ZoneOf(a.bindClient, r) != ""
  {
    var c := a.bindClient;
    PtrRecordsSound(a, machines);
    var m :| m in machines && r in MachinePtrRecords(c, PtrHost(a, m), m);
    MachinePtrRecordsSound(c, PtrHost(a, m), m, r);
    assert WellFormedAddresses(m);
    if m.ipv4Address != "" && CreatePTRRecord(c, m.ipv4Address, PtrHost(a, m)) == Success(Some(r)) {
      IPv4RecordRouted(cfg, a, m.ipv4Address, PtrHost(a, m), r);
    } else {
      IPv6RecordRouted(cfg, a, m.ipv6Address, PtrHost(a, m), r);
    }
  }

  /**
   * Under a validated configuration, with well-formed addresses, UpdateRecords
   * drops no record of a batch: each is grouped under a non-empty zone (the
   * forward zone for A/AAAA records) and carries the configured TTL.
   */
  lemma SnapshotRouted(cfg: Config.Config, a: App, machines: seq<Machine>)
    requires Config.Validate(cfg).Pass? && NewApp(cfg) == Success(a)
    requires forall m :: m in machines ==> WellFormedAddresses(m)
    ensures forall r :: r in SnapshotRecords(a, machines) ==>
      && r.ttl == Config.WholeSeconds(cfg.bind.ttl)
      && (r.rtype != "PTR" ==> ZoneOf(a.bindClient, r) == cfg.bind.zone)
      && ZoneOf(a.bindClient, r) in Grouping(a.bindClient, SnapshotRecords(a, machines))
      && r in Grouping(a.bindClient, SnapshotRecords(a, machines))[ZoneOf(a.bindClient, r)]
  {
    var c := a.bindClient;
    var ttl := Config.WholeSeconds(cfg.bind.ttl);
    var records := SnapshotRecords(a, machines);
    ForwardRecordsExact(machines, ttl);
    GroupingPartitions(r => ZoneOf(c, r), records);
    forall r | r in records
      ensures r.ttl == ttl && (r.rtype != "PTR" ==> ZoneOf(c, r) == cfg.bind.zone) && ZoneOf(c, r) != ""
    {
      if r in PtrRecords(a, machines) {
        PtrRecordRouted(cfg, a, machines, r);
      } else {
        assert ForwardOrigin(machines, ttl, r);
      }
    }
  }
}
