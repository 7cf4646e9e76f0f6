/** What the canonical text looks like, value by value: no space anywhere, and each part written once. */
module CanonicalText {
  import opened Values
  import opened Sequences
  import opened Ordering
  import opened JsonText
  import opened Canonical

  lemma ScalarText(i: int, s: string)
    ensures Canon(Null) == Some("null")
    ensures Canon(Bool(true)) == Some("true") && Canon(Bool(false)) == Some("false")
    ensures Canon(Int(i)) == Some(if i >= 0 then Digits(i) else "-" + Digits(-i))
    ensures Canon(Str(s)) == Some("\"" + Escape(s) + "\"")
  {
  }

  lemma {:induction false} JoinAppend(a: seq<string>, b: seq<string>)
    requires a != [] && b != []
    ensures Join(a + b) == Join(a) + "," + Join(b)
  {
    var c := a + b;
    assert c[0] == a[0] && c[1..] == a[1..] + b;
    if |a| > 1 { JoinAppend(a[1..], b); }
  }

  lemma {:induction false} ItemsAppend(a: seq<Value>, b: seq<Value>)
    ensures CanonItems(a + b)
            == if CanonItems(a).None? || CanonItems(b).None? then None
               else Some(CanonItems(a).value + CanonItems(b).value)
  {
    hide Canon;
    var c := a + b;
    if a == [] {
      assert c == b;
      if CanonItems(b).Some? { assert [] + CanonItems(b).value == CanonItems(b).value; }
    } else {
      assert c[0] == a[0] && c[1..] == a[1..] + b;
      ItemsAppend(a[1..], b);
      var first, rest, more := Canon(a[0]), CanonItems(a[1..]), CanonItems(b);
      if first.Some? && rest.Some? && more.Some? {
        assert [first.value] + rest.value + more.value == [first.value] + (rest.value + more.value);
      }
    }
  }

  /** The text of a list is that of its items between brackets, with a comma between any two. */
  lemma ListText(v: Value, a: seq<Value>, b: seq<Value>)
    requires a != [] && b != [] && Canon(List(a)).Some? && Canon(List(b)).Some?
    ensures Canon(List([])) == Some("[]")
    ensures Canon(v).Some? ==> Canon(List([v])) == Some("[" + Canon(v).value + "]")
    ensures exists s, t ::
              && Canon(List(a)) == Some("[" + s + "]") && Canon(List(b)) == Some("[" + t + "]")
              && Canon(List(a + b)) == Some("[" + s + "," + t + "]")
  {
    ItemsAppend(a, b);
    CanonItemsDefined(a);
    CanonItemsDefined(b);
    ListIs([v]);
    ListIs(a);
    ListIs(b);
    ListIs(a + b);
    hide Canon, CanonItems;
    var x, y := CanonItems(a).value, CanonItems(b).value;
    JoinAppend(x, y);
    assert "[" + (Join(x) + "," + Join(y)) + "]" == "[" + Join(x) + "," + Join(y) + "]";
    OneItem(v);
    ListIs([]);
    NothingJoined();
    assert Canon(v).Some? ==> Join([Canon(v).value]) == Canon(v).value;
  }

  lemma OneItem(v: Value)
    ensures CanonItems([]) == Some([])
    ensures Canon(v).Some? ==> CanonItems([v]) == Some([Canon(v).value])
  {
    hide Canon;
    assert [v][1..] == [];
    if Canon(v).Some? { assert [Canon(v).value] + [] == [Canon(v).value]; }
  }

  lemma NothingJoined()
    ensures "[" + Join([]) + "]" == "[]" && "{" + Join([]) + "}" == "{}"
  {
  }

  lemma ListIs(a: seq<Value>)
    ensures Canon(List(a)).Some? <==> CanonItems(a).Some?
    ensures CanonItems(a).Some? ==> Canon(List(a)) == Some("[" + Join(CanonItems(a).value) + "]")
  {
  }

  // ----- objects -----

  /** The members stand in the order their keys are sorted in. */
  ghost predicate MembersInOrder(ms: seq<Member>) {
    && (forall i :: 0 <= i < |ms| ==> ms[i].key.StrKey?)
    && forall i, j :: 0 <= i < j < |ms| ==> KeyLess(ms[i].key.name, ms[j].key.name)
  }

  lemma {:induction false} MembersAppend(a: seq<Member>, b: seq<Member>)
    ensures CanonMembers(a + b)
            == if CanonMembers(a).None? || CanonMembers(b).None? then None
               else Some(CanonMembers(a).value + CanonMembers(b).value)
  {
    hide CanonMember;
    var c := a + b;
    if a == [] {
      assert c == b;
      if CanonMembers(b).Some? { assert [] + CanonMembers(b).value == CanonMembers(b).value; }
    } else {
      assert c[0] == a[0] && c[1..] == a[1..] + b;
      MembersAppend(a[1..], b);
      var first, rest, more := CanonMember(a[0]), CanonMembers(a[1..]), CanonMembers(b);
      if first.Some? && rest.Some? && more.Some? {
        assert [first.value] + rest.value + more.value == [first.value] + (rest.value + more.value);
      }
    }
  }

  lemma {:induction false} PartsAppend(a: seq<Entry>, b: seq<Entry>)
    ensures Parts(a + b) == Parts(a) + Parts(b)
  {
    hide Quote;
    var c := a + b;
    if a == [] {
      assert c == b;
    } else {
      assert c[0] == a[0] && c[1..] == a[1..] + b;
      PartsAppend(a[1..], b);
    }
  }

  lemma InOrderText(ms: seq<Member>)
    requires MembersInOrder(ms) && CanonMembers(ms).Some?
    ensures Canon(Map(ms)) == Some("{" + Join(Parts(CanonMembers(ms).value)) + "}")
  {
    hide KeyLess, Canon, Join, Parts, SortBy;
    CanonMembersDefined(ms);
    var es := CanonMembers(ms).value;
    forall i, j | 0 <= i < j < |ms| ensures ms[i].key != ms[j].key {
      KeyOrderStrictTotal(ms[i].key.name, ms[j].key.name, "");
    }
    forall i | 0 <= i < |ms| ensures es[i].key == ms[i].key.name {
      EntryKey(ms[i]);
    }
    assert InKeyOrder(es);
    ObjectTextInKeyOrder(ms, es);
  }

  lemma EntryKey(m: Member)
    requires CanonMember(m).Some? && m.key.StrKey?
    ensures CanonMember(m).value.key == m.key.name
  {
  }

  /** The text of an object whose members stand in order is that of each of them, the quoted key and a colon
  first, between braces, with a comma between any two. */
  lemma ObjectText(key: string, v: Value, a: seq<Member>, b: seq<Member>)
    requires a != [] && b != [] && MembersInOrder(a + b)
    requires Canon(Map(a)).Some? && Canon(Map(b)).Some?
    ensures Canon(Map([])) == Some("{}")
    ensures Canon(v).Some? ==>
              Canon(Map([Member(StrKey(key), v)])) == Some("{\"" + Escape(key) + "\":" + Canon(v).value + "}")
    ensures exists s, t ::
              && Canon(Map(a)) == Some("{" + s + "}") && Canon(Map(b)) == Some("{" + t + "}")
              && Canon(Map(a + b)) == Some("{" + s + "," + t + "}")
  {
    hide Canon, Join, Parts, KeyLess, CanonMembers;
    HalvesInOrder(a, b);
    MapIs(a);
    MapIs(b);
    MembersAppend(a, b);
    var x, y := CanonMembers(a).value, CanonMembers(b).value;
    InOrderText(a);
    InOrderText(b);
    InOrderText(a + b);
    PartsAppend(x, y);
    CanonMembersDefined(a);
    CanonMembersDefined(b);
    JoinAppend(Parts(x), Parts(y));
    var s, t := Join(Parts(x)), Join(Parts(y));
    assert "{" + (s + "," + t) + "}" == "{" + s + "," + t + "}";
    OneMember(key, v);
  }

  lemma HalvesInOrder(a: seq<Member>, b: seq<Member>)
    requires MembersInOrder(a + b)
    ensures MembersInOrder(a) && MembersInOrder(b)
  {
    hide KeyLess;
    var c := a + b;
    assert forall i :: 0 <= i < |a| ==> c[i] == a[i];
    assert forall i :: 0 <= i < |b| ==> c[|a| + i] == b[i];
  }

  lemma MapIs(ms: seq<Member>)
    ensures Canon(Map(ms)).Some? <==> CanonMembers(ms).Some?
  {
  }

  lemma OneMember(key: string, v: Value)
    ensures Canon(Map([])) == Some("{}")
    ensures Canon(v).Some? ==>
              Canon(Map([Member(StrKey(key), v)])) == Some("{\"" + Escape(key) + "\":" + Canon(v).value + "}")
  {
    hide Canon, KeyLess, Join, Parts, CanonMembers, Escape;
    NoMembers();
    InOrderText([]);
    NothingJoined();
    if Canon(v).Some? {
      var m := Member(StrKey(key), v);
      MemberText(m);
      InOrderText([m]);
      PartText(key, Canon(v).value);
    }
  }

  lemma NoMembers()
    ensures CanonMembers([]) == Some([]) && Parts([]) == []
  {
  }

  lemma PartText(key: string, text: string)
    ensures "{" + Join(Parts([Entry(key, text)])) + "}" == "{\"" + Escape(key) + "\":" + text + "}"
  {
    hide Escape;
    var e := Entry(key, text);
    assert [e][1..] == [] && Parts([]) == [];
    var part := Quote(key) + ":" + text;
    assert [part] + [] == [part];
    assert Parts([e]) == [part] && Join([part]) == part;
    var quoted := "\"" + Escape(key);
    assert "{" + (quoted + "\"" + ":" + text) + "}" == "{" + quoted + "\":" + text + "}";
    assert "{" + quoted == "{\"" + Escape(key);
  }

  lemma MemberText(m: Member)
    requires m.key.StrKey? && Canon(m.value).Some?
    ensures CanonMembers([m]) == Some([Entry(m.key.name, Canon(m.value).value)])
  {
    hide Canon;
    assert [m][1..] == [] && CanonMembers([]) == Some([]);
    var e := Entry(m.key.name, Canon(m.value).value);
    assert CanonMember(m) == Some(e) && [e] + [] == [e];
  }
}
