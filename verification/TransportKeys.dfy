/**
 What the watcher's keys tell apart. A key is text joined from a transport's own texts, so it is as good as the text
 that joins it: two records, or two attached transports, share a key exactly when their parts agree, as long as no
 serial holds the separator.
 */
module TransportKeys {
  import opened Text
  import opened TransportWatcher
  import opened Wrappers

  // ----- Text joined by a separator

  /** Where the first separator is, the two sides of it are what was joined. */
  lemma FirstSplit(a: string, b: string, c: string, d: string, separator: char)
    requires separator !in a && separator !in c
    ensures a + [separator] + b == c + [separator] + d <==> a == c && b == d
  {
    var left, right := a + [separator] + b, c + [separator] + d;
    assert left[|a|] == separator && right[|c|] == separator;
    assert forall k :: 0 <= k < |a| ==> left[k] == a[k];
    assert forall k :: 0 <= k < |c| ==> right[k] == c[k];
    if left == right {
      assert |a| == |c|;
      assert a == left[..|a|] && c == right[..|c|];
      assert b == left[|a| + 1..] && d == right[|c| + 1..];
    }
  }

  /** Where the last separator is, likewise. */
  lemma LastSplit(a: string, b: string, c: string, d: string, separator: char)
    requires separator !in b && separator !in d
    ensures a + [separator] + b == c + [separator] + d <==> a == c && b == d
  {
    var left, right := a + [separator] + b, c + [separator] + d;
    assert left[|a|] == separator && right[|c|] == separator;
    assert forall k :: |a| < k < |left| ==> left[k] == b[k - |a| - 1];
    assert forall k :: |c| < k < |right| ==> right[k] == d[k - |c| - 1];
    if left == right {
      assert |a| == |c|;
      assert a == left[..|a|] && c == right[..|c|];
      assert b == left[|a| + 1..] && d == right[|c| + 1..];
    }
  }

  lemma SamePrefix(prefix: string, a: string, b: string)
    ensures prefix + a == prefix + b <==> a == b
  {
    assert (prefix + a)[|prefix|..] == a && (prefix + b)[|prefix|..] == b;
  }

  // ----- Numbers in text

  lemma {:induction false} DigitsOnly(n: nat)
    ensures |Digits(n)| > 0 && (|Digits(n)| == 1 <==> n < 10)
    ensures forall k :: 0 <= k < |Digits(n)| ==> '0' <= Digits(n)[k] <= '9'
  {
    if n >= 10 {
      DigitsOnly(n / 10);
    }
  }

  function Digit(c: char): int { c as int - '0' as int }

  lemma LastDigit(n: nat)
    ensures Digits(n) != "" && Digit(Digits(n)[|Digits(n)| - 1]) == n % 10
    ensures n >= 10 ==> Digits(n)[..|Digits(n)| - 1] == Digits(n / 10)
  {
    hide Digit;
    var c := "0123456789"[n % 10];
    assert Digits(n) == (if n < 10 then "" else Digits(n / 10)) + [c];
    assert Digit(c) == n % 10 by {
      DigitOf(n % 10);
    }
    hide Digits;
  }

  lemma DigitOf(n: nat)
    requires n < 10
    ensures Digit("0123456789"[n]) == n
  {
  }

  lemma {:induction false} DigitsTellApart(m: nat, n: nat)
    ensures Digits(m) == Digits(n) <==> m == n
  {
    hide Digits, Digit;
    DigitsOnly(m);
    DigitsOnly(n);
    if Digits(m) == Digits(n) {
      LastDigit(m);
      LastDigit(n);
      if m >= 10 {
        DigitsTellApart(m / 10, n / 10);
      }
    }
  }

  lemma AddressesTellApart(h: string, m: nat, i: string, n: nat)
    ensures h + ":" + Digits(m) == i + ":" + Digits(n) <==> h == i && m == n
  {
    DigitsOnly(m);
    DigitsOnly(n);
    DigitsTellApart(m, n);
    hide Digits;
    LastSplit(h, Digits(m), i, Digits(n), ':');
  }

  // ----- Records

  /** The text a record's key has in front of its port. */
  function Front(d: Device): string { Trim(d.serial) + "|" + Trim(d.host) }

  /** Two devices have one record exactly when their ports agree and so do their serials and hosts, joined. */
  lemma RecordsTellApart(d: Device, e: Device)
    ensures RecordKey(d) == RecordKey(e) <==>
            d.port == e.port && Trim(d.serial) + "|" + Trim(d.host) == Trim(e.serial) + "|" + Trim(e.host)
  {
    hide Trim, Digits;
    AddressesTellApart(Front(d), d.port, Front(e), e.port);
  }

  /** And, as long as no serial holds the separator, exactly when serial, host and port all agree. */
  lemma RecordsAreEndpoints(d: Device, e: Device)
    requires '|' !in Trim(d.serial) && '|' !in Trim(e.serial)
    ensures RecordKey(d) == RecordKey(e) <==>
            Trim(d.serial) == Trim(e.serial) && Trim(d.host) == Trim(e.host) && d.port == e.port
  {
    hide Trim, Digits;
    RecordsTellApart(d, e);
    FirstSplit(Trim(d.serial), Trim(d.host), Trim(e.serial), Trim(e.host), '|');
  }

  /** With a separator in a serial two endpoints can have one record. */
  lemma SharedRecord()
    ensures RecordKey(Device("a|b", "", "c", 5555)) == RecordKey(Device("a", "", "b|c", 5555))
  {
    var d, e := Device("a|b", "", "c", 5555), Device("a", "", "b|c", 5555);
    assert Trim("a|b") == "a|b" && Trim("c") == "c" && Trim("a") == "a" && Trim("b|c") == "b|c";
    assert Front(d) == Front(e);
    hide Trim;
    RecordsTellApart(d, e);
  }

  // ----- Attached transports

  /** What identifies an attached transport: its serial and the transport's own identifier, or what there is of an address. */
  datatype Identity =
    | OnTransport(serial: string, transport: string)
    | AtAddress(serial: string, host: string, port: nat)
    | BySerial(serial: string)
    | ByAddress(host: string, port: nat)
    | Unidentified

  function IdentityOf(d: Device): Identity {
    var addressed := d.port > 0 || Trim(d.host) != "";
    if Trim(d.serial) == "" then if addressed then ByAddress(Trim(d.host), d.port) else Unidentified
    else if Trim(d.transportID) != "" then OnTransport(Trim(d.serial), Trim(d.transportID))
    else if addressed then AtAddress(Trim(d.serial), Trim(d.host), d.port)
    else BySerial(Trim(d.serial))
  }

  function Tail(i: Identity): string
    requires i.OnTransport? || i.AtAddress?
  {
    match i
    case OnTransport(_, transport) => "transport=" + transport
    case AtAddress(_, host, port) => "address=" + (host + ":" + Digits(port))
  }

  /** The text each identity is written as. */
  function Written(i: Identity): string
    requires !i.Unidentified?
  {
    match i
    case OnTransport(serial, _) => "serial=" + serial + "|" + Tail(i)
    case AtAddress(serial, _, _) => "serial=" + serial + "|" + Tail(i)
    case BySerial(serial) => "serial=" + serial
    case ByAddress(host, port) => "address=" + (host + ":" + Digits(port))
  }

  lemma KeyIsWritten(d: Device)
    ensures TransportKey(d) == if IdentityOf(d).Unidentified? then None else Some(Key(Written(IdentityOf(d))))
  {
    hide Trim, Digits;
    var i := IdentityOf(d);
    if i.OnTransport? {
      assert "serial=" + i.serial + "|transport=" + i.transport == "serial=" + i.serial + "|" + ("transport=" + i.transport);
    } else if i.AtAddress? {
      var address := i.host + ":" + Digits(i.port);
      assert "serial=" + i.serial + "|address=" + address == "serial=" + i.serial + "|" + ("address=" + address);
    }
  }

  lemma TailsTellApart(i: Identity, j: Identity)
    requires i.OnTransport? || i.AtAddress?
    requires j.OnTransport? || j.AtAddress?
    ensures Tail(i) == Tail(j) <==> i.(serial := j.serial) == j
  {
    hide Digits;
    assert Tail(i)[0] == if i.OnTransport? then 't' else 'a';
    assert Tail(j)[0] == if j.OnTransport? then 't' else 'a';
    if i.OnTransport? && j.OnTransport? {
      SamePrefix("transport=", i.transport, j.transport);
    } else if i.AtAddress? && j.AtAddress? {
      SamePrefix("address=", i.host + ":" + Digits(i.port), j.host + ":" + Digits(j.port));
      AddressesTellApart(i.host, i.port, j.host, j.port);
    }
  }

  predicate Named(i: Identity) { i.OnTransport? || i.AtAddress? || i.BySerial? }

  predicate Plain(i: Identity) { Named(i) ==> '|' !in i.serial }

  /** The text of an identity with a serial has a separator in it exactly when something follows the serial. */
  lemma SeparatorFollows(i: Identity)
    requires Named(i) && Plain(i)
    ensures '|' in Written(i) <==> !i.BySerial?
    ensures Written(i)[0] == 's'
  {
    hide Digits;
    if !i.BySerial? {
      assert Written(i)[|"serial=" + i.serial|] == '|';
    }
  }

  lemma WrittenTellsApart(i: Identity, j: Identity)
    requires !i.Unidentified? && !j.Unidentified? && Plain(i) && Plain(j)
    ensures Written(i) == Written(j) <==> i == j
  {
    hide Digits;
    if i.ByAddress? && j.ByAddress? {
      SamePrefix("address=", i.host + ":" + Digits(i.port), j.host + ":" + Digits(j.port));
      AddressesTellApart(i.host, i.port, j.host, j.port);
    } else if i.ByAddress? {
      SeparatorFollows(j);
      assert Written(i)[0] == 'a';
    } else if j.ByAddress? {
      SeparatorFollows(i);
      assert Written(j)[0] == 'a';
    } else {
      SeparatorFollows(i);
      SeparatorFollows(j);
      SamePrefix("serial=", i.serial, j.serial);
      if !i.BySerial? && !j.BySerial? {
        hide Tail;
        TailsTellApart(i, j);
        FirstSplit("serial=" + i.serial, Tail(i), "serial=" + j.serial, Tail(j), '|');
      }
    }
  }

  /**
   Two attached transports are one to the watcher exactly when what identifies them agrees, as long as no serial holds
   the separator; and one is skipped exactly when it has neither a serial nor an address.
   */
  lemma TransportsTellApart(d: Device, e: Device)
    requires '|' !in Trim(d.serial) && '|' !in Trim(e.serial)
    ensures TransportKey(d).None? <==> Trim(d.serial) == "" && d.port == 0 && Trim(d.host) == ""
    ensures TransportKey(d).Some? ==> (TransportKey(d) == TransportKey(e) <==> IdentityOf(d) == IdentityOf(e))
  {
    KeyIsWritten(d);
    KeyIsWritten(e);
    hide Trim, Digits, TransportKey, Written;
    if TransportKey(d).Some? && TransportKey(e).Some? {
      WrittenTellsApart(IdentityOf(d), IdentityOf(e));
    }
  }

  /** With a separator in a serial two transports can share a key. */
  lemma SharedTransport()
    ensures TransportKey(Device("a", "b", "", 0)) == TransportKey(Device("a|transport=b", "", "", 0)) != None
  {
    assert Trim("a") == "a" && Trim("b") == "b" && Trim("") == "" && Trim("a|transport=b") == "a|transport=b";
    hide Trim, Digits;
    assert TransportKey(Device("a", "b", "", 0)) == Some(Key("serial=" + "a" + "|transport=" + "b"));
    assert TransportKey(Device("a|transport=b", "", "", 0)) == Some(Key("serial=" + "a|transport=b"));
    assert "serial=" + "a" + "|transport=" + "b" == "serial=" + "a|transport=b";
  }

  // ----- Views

  /** A view holds exactly the identified transports of the answer, each as its last mention has it. */
  lemma {:induction false} ViewIsTheAnswer(devices: seq<Device>, key: Key)
    ensures key in ViewOf(devices) <==> exists i :: 0 <= i < |devices| && TransportKey(devices[i]) == Some(key)
    ensures forall i :: (0 <= i < |devices| && TransportKey(devices[i]) == Some(key)
                         && forall j :: i < j < |devices| ==> TransportKey(devices[j]) != Some(key)) ==>
              ViewOf(devices)[key] == devices[i]
  {
    hide TransportKey;
    if devices != [] {
      var n := |devices| - 1;
      ViewIsTheAnswer(devices[..n], key);
      assert forall i :: 0 <= i < n ==> devices[..n][i] == devices[i];
    }
  }
}
