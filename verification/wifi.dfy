/** Wi-Fi network QR codes: the `WIFI:` text convention, its parser, and the
    rules for turning a scanned network into a connection suggestion. */
module Wifi {
  import opened Wrappers
  import opened Seqs
  import opened Strs

  datatype Encryption = NoEncryption | Wep | Wpa | Sae

  datatype Network = Network(ssid: string, hidden: bool, password: Option<string>, encryption: Encryption)

  const Prefix := "WIFI:"

  // ---------------------------------------------------------------------
  // Splitting on unescaped semicolons

  /** The body split at every `;` not preceded by a backslash; `escaped`
      says whether the character before the body was a backslash. Empty
      pieces, trailing ones included, are kept. */
  function SplitFields(s: string, escaped: bool): (r: seq<string>)
    ensures |r| >= 1
    decreases |s|
  {
    if |s| == 0 then [""]
    else if s[0] == ';' && !escaped then [""] + SplitFields(s[1..], false)
    else
      var rest := SplitFields(s[1..], s[0] == '\\');
      [[s[0]] + rest[0]] + rest[1..]
  }

  /** No separator in `a`: each of its semicolons is escaped. */
  ghost predicate Unbroken(a: string, escaped: bool) {
    (|a| > 0 && a[0] == ';' ==> escaped) &&
    forall i :: 1 <= i < |a| && a[i] == ';' ==> a[i - 1] == '\\'
  }

  /** Whether the last character of `a`, or before it when empty, is a
      backslash. */
  function EndsEscaped(a: string, escaped: bool): bool {
    if |a| == 0 then escaped else a[|a| - 1] == '\\'
  }

  /** Text without separators joins the first piece of what follows it. */
  lemma {:induction false} SplitFieldsAppend(a: string, s: string, escaped: bool)
    requires Unbroken(a, escaped)
    ensures var rest := SplitFields(s, EndsEscaped(a, escaped));
      SplitFields(a + s, escaped) == [a + rest[0]] + rest[1..]
    decreases |a|
  {
    var rest := SplitFields(s, EndsEscaped(a, escaped));
    if |a| == 0 {
      assert a + s == s;
      assert a + rest[0] == rest[0];
      assert [rest[0]] + rest[1..] == rest;
    } else {
      var e := a[0] == '\\';
      var x := a + s;
      UnbrokenTail(a, escaped);
      SplitFieldsAppend(a[1..], s, e);
      assert x[1..] == a[1..] + s && x[0] == a[0];
      SplitFieldsJoin(x, escaped);
      var inner := SplitFields(a[1..] + s, e);
      assert inner[0] == a[1..] + rest[0] && inner[1..] == rest[1..];
      assert [a[0]] + (a[1..] + rest[0]) == a + rest[0];
    }
  }

  /** A first character that is not a separator joins the first piece. */
  lemma {:induction false} SplitFieldsJoin(x: string, escaped: bool)
    requires |x| > 0 && (x[0] == ';' ==> escaped)
    ensures var rest := SplitFields(x[1..], x[0] == '\\');
      SplitFields(x, escaped) == [[x[0]] + rest[0]] + rest[1..]
  {
  }

  /** The tail of text without separators has none either, and ends as
      escaped as the whole. */
  lemma {:induction false} UnbrokenTail(a: string, escaped: bool)
    requires Unbroken(a, escaped) && |a| > 0
    ensures Unbroken(a[1..], a[0] == '\\')
    ensures EndsEscaped(a[1..], a[0] == '\\') == EndsEscaped(a, escaped)
    ensures a[0] == ';' ==> escaped
  {
    forall i | 1 <= i < |a[1..]| && a[1..][i] == ';'
      ensures a[1..][i - 1] == '\\'
    {
      assert a[i + 1] == ';';
    }
  }

  /** `key:value;` */
  function Field(key: string, value: string): string {
    key + ":" + value + ";"
  }

  /** A field whose text has no separator and does not end in a backslash
      comes out of the split as one piece. */
  lemma {:induction false} SplitField(key: string, value: string, rest: string)
    requires Unbroken(key + ":" + value, false) && !EndsEscaped(key + ":" + value, false)
    ensures SplitFields(Field(key, value) + rest, false) == [key + ":" + value] + SplitFields(rest, false)
  {
    var a := key + ":" + value;
    SplitFieldsAppend(a, ";" + rest, false);
    assert Field(key, value) + rest == a + (";" + rest);
    assert (";" + rest)[1..] == rest;
    var r := SplitFields(";" + rest, false);
    assert r == [""] + SplitFields(rest, false);
    assert a + r[0] == a;
  }

  // ---------------------------------------------------------------------
  // Escaping

  /** The convention's escaping of a value: a backslash before each `;`. */
  function Escape(v: string): string {
    ReplaceChar(v, ';', "\\;")
  }

  /** Every backslash removed, as the parser does to the name and the
      password. */
  function Unescape(v: string): (r: string)
    ensures '\\' !in r
  {
    ReplaceChar(v, '\\', "")
  }

  /** An escaped value that had no backslash holds no separator and does
      not start with `;` or end in a backslash. */
  lemma {:induction false} EscapeUnbroken(v: string)
    requires '\\' !in v
    ensures forall i :: 0 <= i < |Escape(v)| && Escape(v)[i] == ';' ==> i > 0 && Escape(v)[i - 1] == '\\'
    ensures |Escape(v)| > 0 ==> Escape(v)[|Escape(v)| - 1] != '\\' && Escape(v)[0] != ';'
    decreases |v|
  {
    if |v| > 0 {
      assert '\\' !in v[1..] by {
        assert forall c :: c in v[1..] ==> c in v;
      }
      EscapeUnbroken(v[1..]);
      var head := if v[0] == ';' then "\\;" else [v[0]];
      var t := Escape(v[1..]);
      assert Escape(v) == head + t;
      assert v[0] in v;
      assert forall j :: 0 <= j < |t| ==> (head + t)[j + |head|] == t[j];
      assert |t| > 0 ==> t[0] != ';';
    }
  }

  /** Unescaping undoes escaping for a value without backslashes. */
  lemma {:induction false} UnescapeEscape(v: string)
    requires '\\' !in v
    ensures Unescape(Escape(v)) == v
    decreases |v|
  {
    if |v| > 0 {
      assert v[0] in v;
      assert '\\' !in v[1..] by {
        assert forall c :: c in v[1..] ==> c in v;
      }
      UnescapeEscape(v[1..]);
      var head := EscapedChar(v[0]);
      assert Escape(v) == head + Escape(v[1..]);
      UnescapeAppend(head, Escape(v[1..]));
      UnescapeEscapedChar(v[0]);
      assert [v[0]] + v[1..] == v;
    }
  }

  /** What escaping writes for one character. */
  function EscapedChar(c: char): string {
    if c == ';' then "\\;" else [c]
  }

  /** Unescaping one escaped character other than a backslash gives it
      back. */
  lemma {:induction false} UnescapeEscapedChar(c: char)
    requires c != '\\'
    ensures Unescape(EscapedChar(c)) == [c]
  {
    if c == ';' {
      assert "\\;"[1..] == ";";
      assert ";"[1..] == "";
      assert Unescape("\\;") == Unescape(";") == ";";
    } else {
      assert [c][1..] == "";
    }
  }

  lemma {:induction false} UnescapeAppend(a: string, b: string)
    ensures Unescape(a + b) == Unescape(a) + Unescape(b)
    decreases |a|
  {
    if |a| == 0 {
      assert a + b == b;
    } else {
      assert (a + b)[1..] == a[1..] + b;
      UnescapeAppend(a[1..], b);
    }
  }

  // ---------------------------------------------------------------------
  // Parsing

  /** A piece split at its first `:`; a piece without one is dropped. */
  function FieldPair(piece: string): (r: Option<(string, string)>)
    ensures r.None? <==> ':' !in piece
    ensures r.Some? ==> piece == r.value.0 + ":" + r.value.1 && ':' !in r.value.0
  {
    var k := IndexOf(piece, ':');
    if k < 0 then None
    else
      assert piece == piece[..k] + ":" + piece[k + 1..];
      assert ':' !in piece[..k];
      Some((piece[..k], piece[k + 1..]))
  }

  lemma {:induction false} FieldPairOfKey(key: char, v: string)
    requires key != ':'
    ensures FieldPair([key] + ":" + v) == Some(([key], v))
  {
    var piece := [key] + ":" + v;
    assert piece[0] == key && piece[1] == ':';
    assert IndexOf(piece, ':') == 1;
    assert piece[..1] == [key] && piece[2..] == v;
  }

  /** The pairs as a map; a later piece with the same key wins. */
  function ToMap(pieces: seq<string>): (m: map<string, string>)
    decreases |pieces|
  {
    if |pieces| == 0 then map[]
    else
      var m := ToMap(pieces[..|pieces| - 1]);
      match FieldPair(pieces[|pieces| - 1])
      case None => m
      case Some((k, v)) => m[k := v]
  }

  /** No piece is a field with this key. */
  predicate NoField(pieces: seq<string>, k: string) {
    forall i :: 0 <= i < |pieces| ==> FieldPair(pieces[i]).None? || FieldPair(pieces[i]).value.0 != k
  }

  /** A key no piece carries is not in the map. */
  lemma {:induction false} ToMapAbsent(pieces: seq<string>, k: string)
    requires NoField(pieces, k)
    ensures k !in ToMap(pieces)
    decreases |pieces|
  {
    if |pieces| > 0 {
      var init := pieces[..|pieces| - 1];
      assert forall i :: 0 <= i < |init| ==> init[i] == pieces[i];
      ToMapAbsent(init, k);
    }
  }

  function EncryptionOf(t: Option<string>): (e: Encryption)
    ensures e == Wep <==> t == Some("WEP")
    ensures e == Wpa <==> t == Some("WPA")
    ensures e == Sae <==> t == Some("SAE")
  {
    match t
    case Some("WEP") => Wep
    case Some("WPA") => Wpa
    case Some("SAE") => Sae
    case _ => NoEncryption
  }

  function Get(m: map<string, string>, k: string): Option<string> {
    if k in m then Some(m[k]) else None
  }

  /** `fromQr`: `null` unless the text starts with `WIFI:` in any ASCII case
      and has a name field. */
  function FromQr(text: string): (r: Option<Network>)
    ensures r.Some? ==> |text| >= 5 && Upper(text[..5]) == Prefix
    ensures r.Some? ==> '\\' !in r.value.ssid
  {
    if |text| < 5 || Upper(text)[..5] != Prefix then None
    else
      assert Upper(text[..5]) == Upper(text)[..5];
      FromData(ToMap(SplitFields(text[5..], false)))
  }

  /** The network a parsed map describes: none without a name. */
  function FromData(data: map<string, string>): (r: Option<Network>)
    ensures r.None? <==> "S" !in data
    ensures r.Some? ==> r.value.ssid == Unescape(data["S"])
  {
    match Get(data, "S")
    case None => None
    case Some(s) =>
      var p := Get(data, "P");
      Some(Network(
        Unescape(s),
        Get(data, "H") == Some("true"),
        if p.Some? then Some(Unescape(p.value)) else None,
        EncryptionOf(Get(data, "T"))))
  }

  /** A result needs a name field: a text without one gives `null`. */
  lemma {:induction false} FromQrNeedsName(text: string)
    requires |text| >= 5 && Upper(text)[..5] == Prefix
    requires NoField(SplitFields(text[5..], false), "S")
    ensures FromQr(text).None?
  {
    ToMapAbsent(SplitFields(text[5..], false), "S");
  }

  // ---------------------------------------------------------------------
  // Encoding, the parser's partner

  function TypeName(e: Encryption): string {
    match e
    case NoEncryption => "nopass"
    case Wep => "WEP"
    case Wpa => "WPA"
    case Sae => "SAE"
  }

  /** Fields keyed by one character, with escaped values. */
  function Fields(kvs: seq<(char, string)>): string
    decreases |kvs|
  {
    if |kvs| == 0 then "" else Field([kvs[0].0], Escape(kvs[0].1)) + Fields(kvs[1..])
  }

  /** The pieces the parser should see for these fields. */
  function Pieces(kvs: seq<(char, string)>): (r: seq<string>)
    ensures |r| == |kvs|
  {
    seq(|kvs|, i requires 0 <= i < |kvs| => [kvs[i].0] + ":" + Escape(kvs[i].1))
  }

  /** Keys that need no escaping, values without backslashes. */
  predicate Plain(kvs: seq<(char, string)>) {
    forall i :: 0 <= i < |kvs| ==> kvs[i].0 != ';' && kvs[i].0 != '\\' && kvs[i].0 != ':' && '\\' !in kvs[i].1
  }

  /** The fields of a network: name, type, the password if any, the hidden
      flag. */
  function NetworkFields(n: Network): seq<(char, string)> {
    [('S', n.ssid), ('T', TypeName(n.encryption))]
      + (if n.password.Some? then [('P', n.password.value)] else [])
      + [('H', if n.hidden then "true" else "false")]
  }

  /** The QR text of a network, closed by an extra `;`. */
  function ToQr(n: Network): string {
    Prefix + Fields(NetworkFields(n)) + ";"
  }

  /** A key of one plain character, a colon and an escaped value: no
      separator inside, no backslash at the end. */
  lemma {:induction false} KeyedEscaped(key: char, v: string)
    requires key != ';' && key != '\\' && '\\' !in v
    ensures Unbroken([key] + ":" + Escape(v), false) && !EndsEscaped([key] + ":" + Escape(v), false)
  {
    EscapeUnbroken(v);
    var e := Escape(v);
    var a := [key] + ":" + e;
    assert forall j :: 0 <= j < |e| ==> a[j + 2] == e[j];
  }

  /** Encoded fields split back into their pieces, then two empty ones. */
  lemma {:induction false} FieldsSplit(kvs: seq<(char, string)>)
    requires Plain(kvs)
    ensures SplitFields(Fields(kvs) + ";", false) == Pieces(kvs) + ["", ""]
    decreases |kvs|
  {
    if |kvs| == 0 {
      assert Fields(kvs) + ";" == ";";
      assert ";"[1..] == "";
    } else {
      var k, v := kvs[0].0, kvs[0].1;
      KeyedEscaped(k, v);
      PlainTail(kvs);
      FieldsSplit(kvs[1..]);
      SplitField([k], Escape(v), Fields(kvs[1..]) + ";");
      assert Fields(kvs) + ";" == Field([k], Escape(v)) + (Fields(kvs[1..]) + ";");
      PiecesCons(kvs);
    }
  }

  lemma {:induction false} PlainTail(kvs: seq<(char, string)>)
    requires Plain(kvs) && |kvs| > 0
    ensures Plain(kvs[1..]) && kvs[0].0 != ';' && kvs[0].0 != '\\' && '\\' !in kvs[0].1
  {
    forall i | 0 <= i < |kvs[1..]|
      ensures kvs[1..][i].0 != ';' && kvs[1..][i].0 != '\\' && kvs[1..][i].0 != ':' && '\\' !in kvs[1..][i].1
    {
      assert kvs[1..][i] == kvs[i + 1];
    }
  }

  lemma {:induction false} PiecesCons(kvs: seq<(char, string)>)
    requires |kvs| > 0
    ensures Pieces(kvs) == [[kvs[0].0] + ":" + Escape(kvs[0].1)] + Pieces(kvs[1..])
  {
  }

  /** The pairs as a map, a later key winning. */
  function MapOf(kvs: seq<(char, string)>): map<string, string>
    decreases |kvs|
  {
    if |kvs| == 0 then map[]
    else MapOf(kvs[..|kvs| - 1])[[kvs[|kvs| - 1].0] := Escape(kvs[|kvs| - 1].1)]
  }

  lemma {:induction false} ToMapPieces(kvs: seq<(char, string)>)
    requires Plain(kvs)
    ensures ToMap(Pieces(kvs)) == MapOf(kvs)
    decreases |kvs|
  {
    if |kvs| > 0 {
      var init := kvs[..|kvs| - 1];
      assert Plain(init) by {
        forall i | 0 <= i < |init|
          ensures init[i].0 != ';' && init[i].0 != '\\' && init[i].0 != ':' && '\\' !in init[i].1
        {
          assert init[i] == kvs[i];
        }
      }
      ToMapPieces(init);
      assert Pieces(kvs)[..|kvs| - 1] == Pieces(init);
      var last := kvs[|kvs| - 1];
      FieldPairOfKey(last.0, Escape(last.1));
    }
  }

  lemma {:induction false} ToMapDropsEmpty(pieces: seq<string>)
    ensures ToMap(pieces + ["", ""]) == ToMap(pieces)
  {
    assert (pieces + ["", ""])[..|pieces| + 1] == pieces + [""];
    assert (pieces + [""])[..|pieces|] == pieces;
    assert FieldPair("") == None;
  }

  /** With distinct keys, each key maps to its own escaped value and no
      other key is present. */
  lemma {:induction false} MapOfLookup(kvs: seq<(char, string)>, k: char)
    requires forall i, j :: 0 <= i < j < |kvs| ==> kvs[i].0 != kvs[j].0
    ensures [k] in MapOf(kvs) <==> exists i :: 0 <= i < |kvs| && kvs[i].0 == k
    ensures forall i :: 0 <= i < |kvs| && kvs[i].0 == k ==> MapOf(kvs)[[k]] == Escape(kvs[i].1)
    decreases |kvs|
  {
    if |kvs| > 0 {
      var init := kvs[..|kvs| - 1];
      MapOfLookup(init, k);
      assert forall i :: 0 <= i < |init| ==> init[i] == kvs[i];
      assert forall s: string :: s in MapOf(kvs) <==> s in MapOf(init) || s == [kvs[|kvs| - 1].0];
    }
  }

  /** The QR text of a network passes the prefix test, and what follows the
      prefix is its fields and the closing `;`. */
  lemma {:induction false} QrPrefix(n: Network)
    ensures |ToQr(n)| >= 5 && Upper(ToQr(n))[..5] == Prefix
    ensures ToQr(n)[5..] == Fields(NetworkFields(n)) + ";"
  {
    var text := ToQr(n);
    assert text == Prefix + (Fields(NetworkFields(n)) + ";");
    assert text[..5] == Prefix;
    assert Upper(text)[..5] == Upper(Prefix);
  }

  /** The fields of a network are plain when its name and password hold no
      backslash. */
  lemma {:induction false} NetworkPlain(n: Network)
    requires '\\' !in n.ssid && (n.password.Some? ==> '\\' !in n.password.value)
    ensures Plain(NetworkFields(n))
  {
    var kvs := NetworkFields(n);
    var tn := TypeName(n.encryption);
    var hv := if n.hidden then "true" else "false";
    assert '\\' !in tn && '\\' !in hv;
  }

  /** The map the parser builds from an encoded network. */
  lemma {:induction false} ParsedMap(n: Network)
    requires '\\' !in n.ssid && (n.password.Some? ==> '\\' !in n.password.value)
    ensures |ToQr(n)| >= 5 && Upper(ToQr(n))[..5] == Prefix
    ensures ToMap(SplitFields(ToQr(n)[5..], false)) == MapOf(NetworkFields(n))
  {
    var kvs := NetworkFields(n);
    QrPrefix(n);
    NetworkPlain(n);
    FieldsSplit(kvs);
    ToMapDropsEmpty(Pieces(kvs));
    ToMapPieces(kvs);
  }

  /** One more pair is one more map entry, overriding an earlier one. */
  lemma {:induction false} MapOfSnoc(init: seq<(char, string)>, kv: (char, string))
    ensures MapOf(init + [kv]) == MapOf(init)[[kv.0] := Escape(kv.1)]
  {
    assert (init + [kv])[..|init|] == init;
  }

  /** The map an encoded network's fields make, entry by entry. */
  function NetworkMap(n: Network): map<string, string> {
    var named := map["S" := Escape(n.ssid), "T" := Escape(TypeName(n.encryption))];
    var withPassword := if n.password.Some? then named["P" := Escape(n.password.value)] else named;
    withPassword["H" := Escape(if n.hidden then "true" else "false")]
  }

  lemma {:induction false} MapOfNetwork(n: Network)
    ensures MapOf(NetworkFields(n)) == NetworkMap(n)
  {
    var tn := TypeName(n.encryption);
    var hv := if n.hidden then "true" else "false";
    var st := [('S', n.ssid), ('T', tn)];
    MapOfSnoc([], ('S', n.ssid));
    assert [] + [('S', n.ssid)] == [('S', n.ssid)];
    MapOfSnoc([('S', n.ssid)], ('T', tn));
    assert [('S', n.ssid)] + [('T', tn)] == st;
    var mid := if n.password.Some? then st + [('P', n.password.value)] else st;
    if n.password.Some? {
      MapOfSnoc(st, ('P', n.password.value));
    }
    MapOfSnoc(mid, ('H', hv));
    assert NetworkFields(n) == mid + [('H', hv)];
  }

  /** The values the map holds for an encoded network. */
  lemma {:induction false} NetworkLookups(n: Network)
    ensures var data := MapOf(NetworkFields(n));
      Get(data, "S") == Some(Escape(n.ssid)) &&
      Get(data, "T") == Some(TypeName(n.encryption)) &&
      Get(data, "H") == Some(if n.hidden then "true" else "false") &&
      Get(data, "P") == if n.password.Some? then Some(Escape(n.password.value)) else None
  {
    MapOfNetwork(n);
    PlainTexts(n);
  }

  /** The type name and the hidden flag need no escaping. */
  lemma {:induction false} PlainTexts(n: Network)
    ensures Escape(TypeName(n.encryption)) == TypeName(n.encryption)
    ensures Escape(if n.hidden then "true" else "false") == if n.hidden then "true" else "false"
  {
    var tn := TypeName(n.encryption);
    var hv := if n.hidden then "true" else "false";
    assert ';' !in tn && ';' !in hv;
  }

  /** The map of an encoded network describes the network again. */
  lemma {:induction false} FromDataOf(n: Network)
    requires '\\' !in n.ssid && (n.password.Some? ==> '\\' !in n.password.value)
    ensures FromData(MapOf(NetworkFields(n))) == Some(n)
  {
    NetworkLookups(n);
    UnescapeEscape(n.ssid);
    if n.password.Some? {
      UnescapeEscape(n.password.value);
    }
    assert EncryptionOf(Some(TypeName(n.encryption))) == n.encryption;
  }

  /** Parsing an encoded network gives it back, for names and passwords
      without backslashes (the parser drops every backslash). */
  lemma {:induction false} FromQrToQr(n: Network)
    requires '\\' !in n.ssid && (n.password.Some? ==> '\\' !in n.password.value)
    ensures FromQr(ToQr(n)) == Some(n)
  {
    ParsedMap(n);
    FromDataOf(n);
  }

  // ---------------------------------------------------------------------
  // Suggestions

  datatype Passphrase = Open | Wpa2Passphrase(p: string) | Wpa3Passphrase(p: string)

  datatype Suggestion = Suggestion(ssid: string, hidden: bool, passphrase: Passphrase)

  /** Whether a Java string is ASCII-encodable, as the platform builder's
      passphrase setters require. */
  predicate IsAscii(p: string) {
    forall i :: 0 <= i < |p| ==> p[i] as int < 128
  }

  /** `toNetworkSuggestion`: none for WEP; a password on an open network
      throws; WPA passwords are WPA2 passphrases and SAE ones WPA3, and the
      platform's passphrase setters throw for a passphrase that is not
      ASCII-encodable. */
  function ToSuggestion(n: Network): (r: Result<Option<Suggestion>>)
    ensures r.Err? <==>
      (n.encryption != Wep && n.password.Some? && (n.encryption == NoEncryption || !IsAscii(n.password.value)))
    ensures r == Ok(None) <==> n.encryption == Wep
    ensures r.Ok? && r.value.Some? ==> r.value.value.ssid == n.ssid && r.value.value.hidden == n.hidden
    ensures r.Ok? && r.value.Some? ==> (r.value.value.passphrase == Open <==> n.password.None?)
    ensures r.Ok? && r.value.Some? && n.password.Some? ==>
      r.value.value.passphrase.p == n.password.value &&
      (r.value.value.passphrase.Wpa2Passphrase? <==> n.encryption == Wpa)
  {
    match (n.encryption, n.password)
    case (Wep, _) => Ok(None)
    case (_, None) => Ok(Some(Suggestion(n.ssid, n.hidden, Open)))
    case (NoEncryption, Some(_)) => Err("Invalid encryption type/password combination")
    case (_, Some(p)) =>
      if !IsAscii(p) then Err("passphrase not ASCII encodable")
      else if n.encryption == Wpa then Ok(Some(Suggestion(n.ssid, n.hidden, Wpa2Passphrase(p))))
      else Ok(Some(Suggestion(n.ssid, n.hidden, Wpa3Passphrase(p))))
  }

  // ---------------------------------------------------------------------
  // The scanner variant, built on a third-party parser

  /** What the third-party Wi-Fi parser reports for a QR text. */
  datatype Parsed = Parsed(ssid: string, hidden: bool, password: Option<string>, encryption: string)

  /** The scanner variant's constructor check: an open network has no
      password and a secured one has one. Kotlin's `assert` only fires with
      assertions enabled. */
  predicate WellFormed(n: Network) {
    (n.encryption == NoEncryption) == n.password.None?
  }

  function NewNetwork(ssid: string, hidden: bool, password: Option<string>, e: Encryption, assertions: bool): (r: Result<Network>)
    ensures r.Err? <==> assertions && (e == NoEncryption) != password.None?
    ensures r.Ok? ==> r.value == Network(ssid, hidden, password, e)
  {
    if assertions && (e == NoEncryption) != password.None? then Err("Invalid encryption type/password combination")
    else Ok(Network(ssid, hidden, password, e))
  }

  /** The scanner variant's `fromQr`: `null` when the parser finds nothing or
      the constructor check fails. */
  function FromParsed(parsed: Option<Parsed>, assertions: bool): (r: Option<Network>)
    ensures parsed.None? ==> r.None?
    ensures r.Some? ==> r.value.ssid == parsed.value.ssid && r.value.encryption == EncryptionOf(Some(parsed.value.encryption))
    ensures assertions && r.Some? ==> WellFormed(r.value)
    ensures !assertions ==> (r.Some? <==> parsed.Some?)
  {
    match parsed
    case None => None
    case Some(p) =>
      match NewNetwork(p.ssid, p.hidden, p.password, EncryptionOf(Some(p.encryption)), assertions)
      case Ok(n) => Some(n)
      case Err(_) => None
  }

  /** A network that passed the constructor check makes the suggestion
      builder throw only for a password that is not ASCII-encodable. */
  lemma {:induction false} WellFormedSuggests(n: Network)
    requires WellFormed(n)
    ensures ToSuggestion(n).Err? <==> n.encryption != Wep && n.password.Some? && !IsAscii(n.password.value)
    ensures ToSuggestion(n).Ok? ==> (ToSuggestion(n).value.None? <==> n.encryption == Wep)
  {
  }
}
