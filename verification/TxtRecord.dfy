/** TXT records: the strings of section 6 of RFC 6763, written to a packet and read back. */
module TxtRecord {
  import opened CStrings
  import opened Options
  import opened MdnsCommon

  const MAX_PACKET_SIZE: nat := 1460

  // ----- writing -----

  function EntryText(item: TxtItem): string {
    item.key + (if item.value.Some? then "=" + item.value.value else "")
  }

  /** The length goes through a byte. */
  function Entry(item: TxtItem): string {
    [(|EntryText(item)| % 256) as char] + EntryText(item)
  }

  function Entries(items: seq<TxtItem>): string {
    if items == [] then "" else Entry(items[0]) + Entries(items[1..])
  }

  /** The data of append_txt_record: one zero byte when there is nothing. */
  function Data(items: seq<TxtItem>): string {
    if items == [] then [0 as char] else Entries(items)
  }

  // ----- reading -----

  /** The loop of get_txt_items_count. */
  function CountFrom(data: string): (n: Option<nat>)
    ensures n.Some? ==> n.value <= |data|
    decreases |data|
  {
    if data == "" || data[0] as int == 0 then Some(0)
    else
      var length := data[0] as int;
      if 1 + length > |data| then None
      else
        var rest := CountFrom(data[1 + length..]);
        if rest.None? then None else Some(1 + rest.value)
  }

  /** get_txt_items_count */
  function Count(data: string): Option<nat> {
    if |data| == 1 then Some(0) else CountFrom(data)
  }

  /** get_txt_item_len past its first test: the position of the equals sign, or the length. */
  function KeyLength(text: string): (n: nat)
    ensures n <= |text| && (n < |text| ==> text[n] == '=') && forall i :: 0 <= i < n ==> text[i] != '='
  {
    if text == "" || text[0] == '=' then 0 else 1 + KeyLength(text[1..])
  }

  /** parse_txt_item_data: nothing when there is no key. */
  function ParseItem(text: string): Option<TxtItem>
    requires text != ""
  {
    if text[0] == '=' then None
    else
      var n := KeyLength(text);
      var value := text[if n < |text| then n + 1 else n..];
      Some(TxtItem(Cut(text[..n]), if value == "" then None else Some(value)))
  }

  /** The loop of result_txt_linked_list_create, for so many items. */
  function ParseFrom(data: string, left: nat): Option<seq<TxtItem>>
    decreases |data|
  {
    if data == "" || left == 0 || data[0] as int == 0 then Some([])
    else
      var length := data[0] as int;
      if 1 + length > |data| then None
      else
        var item := ParseItem(data[1..1 + length]);
        var rest := ParseFrom(data[1 + length..], if item.Some? then left - 1 else left);
        if rest.None? then None else Some((if item.Some? then [item.value] else []) + rest.value)
  }

  /** result_txt_linked_list_create */
  function Parse(data: string): Option<seq<TxtItem>> {
    var n := Count(data);
    if n.None? then None else if n.value == 0 then Some([]) else ParseFrom(data, n.value)
  }

  // ----- round trip -----

  predicate KeyOk(key: string) {
    key != "" && (forall i :: 0 <= i < |key| ==> key[i] != '=') && NoNul(key)
  }

  predicate ItemOk(item: TxtItem) {
    KeyOk(item.key) && |EntryText(item)| <= 255
  }

  lemma {:induction false} KeyLengthOf(key: string, rest: string)
    requires (forall i :: 0 <= i < |key| ==> key[i] != '=') && (rest == "" || rest[0] == '=')
    ensures KeyLength(key + rest) == |key|
    decreases |key|
  {
    if key == "" {
      assert key + rest == rest;
    } else {
      KeyLengthOf(key[1..], rest);
      assert (key + rest)[1..] == key[1..] + rest;
    }
  }

  lemma ItemRoundTrip(item: TxtItem)
    requires ItemOk(item)
    ensures EntryText(item) != "" && ParseItem(EntryText(item)) == Some(Delivered(item))
  {
    hide KeyLength;
    var text := EntryText(item);
    var rest := if item.value.Some? then "=" + item.value.value else "";
    KeyLengthOf(item.key, rest);
    CutNothing(item.key);
    assert text[0] == item.key[0] && text[..|item.key|] == item.key;
    if item.value.Some? {
      assert text[|item.key| + 1..] == item.value.value;
    } else {
      assert text[|item.key|..] == "";
    }
  }

  lemma {:induction false} CountEntries(items: seq<TxtItem>)
    requires forall i :: 0 <= i < |items| ==> ItemOk(items[i])
    ensures CountFrom(Entries(items)) == Some(|items|)
    decreases |items|
  {
    if items == [] {
    } else {
      CountEntries(items[1..]);
      EntryShape(items[0], Entries(items[1..]));
    }
  }

  lemma EntryShape(item: TxtItem, rest: string)
    requires ItemOk(item)
    ensures var data := Entry(item) + rest; var length := data[0] as int;
            && 0 < length == |EntryText(item)| && 1 + length <= |data|
            && data[1..1 + length] == EntryText(item) && data[1 + length..] == rest
  {
  }

  lemma DeliveredCons(items: seq<TxtItem>)
    requires items != []
    ensures AllDelivered(items) == [Delivered(items[0])] + AllDelivered(items[1..])
  {
  }

  lemma {:induction false} ParseEntries(items: seq<TxtItem>)
    requires forall i :: 0 <= i < |items| ==> ItemOk(items[i])
    ensures ParseFrom(Entries(items), |items|) == Some(AllDelivered(items))
    decreases |items|
  {
    hide ItemOk, ParseItem, Entry, Delivered;
    if items != [] {
      ParseEntries(items[1..]);
      EntryShape(items[0], Entries(items[1..]));
      ItemRoundTrip(items[0]);
      DeliveredCons(items);
    } else {
      assert AllDelivered(items) == [];
    }
  }

  /** The items of a record come back in order, an empty value as no value. */
  lemma TxtRoundTrip(items: seq<TxtItem>)
    requires forall i :: 0 <= i < |items| ==> ItemOk(items[i])
    ensures Parse(Data(items)) == Some(AllDelivered(items))
  {
    if items == [] {
      assert AllDelivered(items) == [];
    } else {
      CountEntries(items);
      ParseEntries(items);
      ItemRoundTrip(items[0]);
      assert |Entries(items)| >= |Entry(items[0])| >= 2;
    }
  }

  /** The length of an entry fits in its byte. */
  predicate Writable(item: TxtItem) {
    |EntryText(item)| <= 255
  }

  lemma {:induction false} CutShorter(s: string)
    ensures |Cut(s)| <= |s| && NoNul(Cut(s))
  {
    if s == "" {
    } else {
      CutShorter(s[1..]);
    }
  }

  /** An entry reads back as it was written only when its key is not empty and holds no equals sign. */
  lemma ItemReadBack(item: TxtItem)
    requires Writable(item) && EntryText(item) != "" && ParseItem(EntryText(item)) == Some(Delivered(item))
    ensures ItemOk(item)
  {
    hide KeyLength, Cut;
    var text := EntryText(item);
    var n := KeyLength(text);
    CutShorter(text[..n]);
    assert |item.key| <= n;
    forall i | 0 <= i < |item.key| ensures item.key[i] != '=' { assert text[i] == item.key[i]; }
  }

  lemma AnyEntryShape(item: TxtItem, rest: string)
    requires Writable(item)
    ensures var data := Entry(item) + rest; var length := data[0] as int;
            && length == |EntryText(item)| && 1 + length <= |data|
            && data[1..1 + length] == EntryText(item) && data[1 + length..] == rest
  {
  }

  /** Each entry gives one item at most, and all of them come back as written only when all are well formed. */
  lemma {:induction false} EntriesReadBack(items: seq<TxtItem>, left: nat)
    requires forall i :: 0 <= i < |items| ==> Writable(items[i])
    ensures var r := ParseFrom(Entries(items), left);
            r.Some? ==> |r.value| <= |items| &&
                        (r.value == AllDelivered(items) ==> forall i :: 0 <= i < |items| ==> ItemOk(items[i]))
    decreases |items|
  {
    hide Writable, ItemOk, ParseItem, EntryText, Entry, Delivered;
    if items == [] {
    } else {
      AnyEntryShape(items[0], Entries(items[1..]));
      DeliveredCons(items);
      if left > 0 && EntryText(items[0]) != "" {
        var item := ParseItem(EntryText(items[0]));
        EntriesReadBack(items[1..], if item.Some? then left - 1 else left);
        if item == Some(Delivered(items[0])) { ItemReadBack(items[0]); }
      }
    }
  }

  /** The condition is exact: a record reads back as it was written exactly when all its keys are well formed. */
  lemma ReadBackExact(items: seq<TxtItem>)
    requires forall i :: 0 <= i < |items| ==> Writable(items[i])
    ensures Parse(Data(items)) == Some(AllDelivered(items)) <==> forall i :: 0 <= i < |items| ==> ItemOk(items[i])
  {
    hide ParseFrom, ItemOk, CountFrom;
    if forall i :: 0 <= i < |items| ==> ItemOk(items[i]) {
      TxtRoundTrip(items);
    } else {
      EntriesReadBack(items, (var n := Count(Data(items)); if n.Some? then n.value else 0));
    }
  }

  /** A key that holds an equals sign is read back short, and the rest of it as the value. */
  lemma EqualsInKey(a: string, b: string)
    requires KeyOk(a) && b != ""
    ensures ParseItem(EntryText(TxtItem(a + "=" + b, None))) == Some(TxtItem(a, Some(b)))
  {
    var text := a + "=" + b;
    KeyLengthOf(a, "=" + b);
    CutNothing(a);
    assert text == a + ("=" + b) && EntryText(TxtItem(text, None)) == text + "" == text;
    assert text[..|a|] == a && text[|a| + 1..] == b && text[0] == a[0];
  }

  // ----- the packet -----

  /** mdns_priv_append_one_txt_record_entry: nothing is written when the entry does not fit. */
  method AppendEntry(packet: array<char>, index: nat, item: TxtItem) returns (next: nat)
    requires packet.Length == MAX_PACKET_SIZE && index < MAX_PACKET_SIZE
    modifies packet
    ensures index + |Entry(item)| >= MAX_PACKET_SIZE ==> next == index && packet[..] == old(packet[..])
    ensures index + |Entry(item)| < MAX_PACKET_SIZE ==>
              next == index + |Entry(item)| && packet[..next] == old(packet[..index]) + Entry(item)
  {
    var text := EntryText(item);
    if index + |text| + 1 >= MAX_PACKET_SIZE { return index; }
    packet[index] := (|text| % 256) as char;
    var i := 0;
    while i < |text|
      invariant i <= |text| && packet[..index + 1 + i] == old(packet[..index]) + [(|text| % 256) as char] + text[..i]
    {
      packet[index + 1 + i] := text[i];
      i := i + 1;
    }
    assert text[..i] == text;
    next := index + 1 + |text|;
  }

  lemma {:induction false} EntriesAppend(a: seq<TxtItem>, b: seq<TxtItem>)
    ensures Entries(a + b) == Entries(a) + Entries(b)
    decreases |a|
  {
    hide Entry;
    if a == [] {
      assert a + b == b;
    } else {
      EntriesAppend(a[1..], b);
      assert (a + b)[1..] == a[1..] + b;
    }
  }

  lemma EntriesPrefix(items: seq<TxtItem>, k: nat)
    requires k < |items|
    ensures Entries(items[..k + 1]) == Entries(items[..k]) + Entry(items[k])
    ensures |Entries(items[..k + 1])| <= |Entries(items)|
  {
    hide Entry;
    EntriesAppend(items[..k], [items[k]]);
    EntriesAppend(items[..k + 1], items[k + 1..]);
    assert items[..k + 1] == items[..k] + [items[k]] && items == items[..k + 1] + items[k + 1..];
    assert Entry(items[k]) + "" == Entry(items[k]);
  }

  /** The data part of append_txt_record: it succeeds exactly when all entries fit, and writes just the data. */
  method AppendData(packet: array<char>, index: nat, items: seq<TxtItem>) returns (ok: bool, next: nat)
    requires packet.Length == MAX_PACKET_SIZE && index < MAX_PACKET_SIZE
    modifies packet
    ensures ok <==> items == [] || index + |Data(items)| < MAX_PACKET_SIZE
    ensures ok ==> next == index + |Data(items)| <= MAX_PACKET_SIZE
    ensures ok ==> packet[..next] == old(packet[..index]) + Data(items)
  {
    hide Entry, Entries;
    next := index;
    var k := 0;
    NoEntries();
    assert items[..0] == [] && packet[..index] + "" == packet[..index];
    while k < |items|
      invariant k <= |items| && next == index + |Entries(items[..k])| < MAX_PACKET_SIZE
      invariant packet[..next] == old(packet[..index]) + Entries(items[..k])
    {
      EntriesPrefix(items, k);
      EntryNotEmpty(items[k]);
      var at := AppendEntry(packet, next, items[k]);
      if at == next { return false, next; }
      next := at;
      k := k + 1;
    }
    assert items[..k] == items;
    if next == index {
      packet[next] := 0 as char;
      next := next + 1;
      SomeEntries(items);
    }
    return true, next;
  }

  lemma EntryNotEmpty(item: TxtItem)
    ensures |Entry(item)| > 0
  {
  }

  lemma NoEntries()
    ensures Entries([]) == ""
  {
  }

  lemma SomeEntries(items: seq<TxtItem>)
    ensures items != [] ==> |Entries(items)| > 0
  {
  }

  /** get_txt_items_count */
  method CountItems(data: string) returns (n: int)
    ensures n == if Count(data).Some? then Count(data).value else -1
  {
    if |data| == 1 { return 0; }
    n := 0;
    var i := 0;
    assert data[0..] == data;
    while i < |data|
      invariant 0 <= n && i <= |data|
      invariant CountFrom(data) == Plus(n, CountFrom(data[i..]))
    {
      var part := data[i] as int;
      assert data[i..][0] == data[i];
      if part == 0 { return; }
      if i + 1 + part > |data| { return -1; }
      assert data[i..][1 + part..] == data[i + 1 + part..];
      i := i + 1 + part;
      n := n + 1;
    }
    assert data[i..] == "";
  }

  function Plus(n: nat, m: Option<nat>): Option<nat> {
    if m.None? then None else Some(n + m.value)
  }

  /** result_txt_linked_list_create */
  method CreateList(data: string) returns (ok: bool, items: seq<TxtItem>)
    ensures ok <==> Parse(data).Some?
    ensures ok ==> items == Parse(data).value
  {
    hide ParseItem, CountFrom, ParseFrom, Joined, KeyLength;
    var n := CountItems(data);
    items := [];
    if n < 0 { return false, []; }
    if n == 0 { return true, []; }
    var index := 0;
    assert data[0..] == data;
    Nothing(ParseFrom(data, n));
    while index < |data| && |items| < n
      invariant index <= |data| && |items| <= n
      invariant ParseFrom(data, n) == Joined(items, ParseFrom(data[index..], n - |items|))
      decreases |data| - index
    {
      ghost var rest := data[index..];
      assert rest[0] == data[index];
      ParseStep(rest, n - |items|);
      var length := data[index] as int;
      if length == 0 { break; }
      if index + 1 + length > |data| {
        NotJoined(items);
        return false, [];
      }
      var text := data[index + 1..index + 1 + length];
      assert rest[1..1 + length] == text && rest[1 + length..] == data[index + 1 + length..];
      var item := ParseItem(text);
      JoinedStep(items, item, ParseFrom(rest[1 + length..], if item.Some? then n - |items| - 1 else n - |items|));
      if item.Some? {
        items := items + [item.value];
      }
      index := index + 1 + length;
    }
    ParseNone(data[index..], n - |items|);
    JoinedAll(items);
    return true, items;
  }

  lemma ParseStep(data: string, left: nat)
    requires data != "" && left > 0
    ensures var length := data[0] as int;
            ParseFrom(data, left) ==
            if length == 0 then Some([])
            else if 1 + length > |data| then None
            else
              var item := ParseItem(data[1..1 + length]);
              var rest := ParseFrom(data[1 + length..], if item.Some? then left - 1 else left);
              if rest.None? then None else Some((if item.Some? then [item.value] else []) + rest.value)
  {
  }

  lemma ParseNone(data: string, left: nat)
    requires data == "" || left == 0 || data[0] as int == 0
    ensures ParseFrom(data, left) == Some([])
  {
  }

  function Joined(items: seq<TxtItem>, more: Option<seq<TxtItem>>): Option<seq<TxtItem>> {
    if more.None? then None else Some(items + more.value)
  }

  lemma JoinedStep(items: seq<TxtItem>, item: Option<TxtItem>, more: Option<seq<TxtItem>>)
    ensures Joined(items, if more.None? then None else Some((if item.Some? then [item.value] else []) + more.value))
         == Joined(if item.Some? then items + [item.value] else items, more)
  {
    if more.Some? {
      assert item.Some? ==> items + ([item.value] + more.value) == items + [item.value] + more.value;
      assert items + ([] + more.value) == items + more.value;
    }
  }

  lemma NotJoined(items: seq<TxtItem>)
    ensures Joined(items, None) == None
  {
  }

  lemma JoinedAll(items: seq<TxtItem>)
    ensures Joined(items, Some([])) == Some(items)
  {
    assert items + [] == items;
  }

  lemma Nothing(r: Option<seq<TxtItem>>)
    ensures Joined([], r) == r
  {
    if r.Some? { assert [] + r.value == r.value; }
  }
}
