/** The cookie store of one request: an ordered list of cookies, each on the
    workspace, changed in place. */
module Cookie {
  import opened Ascii
  import opened Vcl
  import opened CookieStore
  import T = CookieText
  import L = CookieList

  class Cookie {
    const name: string
    var value: string

    constructor (name: string, value: string)
      ensures this.name == name && this.value == value
    {
      this.name := name;
      this.value := value;
    }
  }

  class Jar {
    var cookielist: seq<Cookie>

    ghost function View(): (r: seq<Pair>)
      reads this, cookielist
      ensures |r| == |cookielist|
    {
      seq(|cookielist|, i requires 0 <= i < |cookielist| reads this, cookielist =>
        Pair(cookielist[i].name, cookielist[i].value))
    }

    ghost predicate Valid()
      reads this, cookielist
    {
      Stored(View())
    }

    constructor ()
      ensures Valid() && View() == []
    {
      cookielist := [];
    }

    /** find_cookie: where the walk stops. */
    method FindPlace(name: string) returns (i: nat)
      ensures i == Place(View(), name)
    {
      i := 0;
      while i < |cookielist| && cookielist[i].name != name
        invariant 0 <= i <= |cookielist|
        invariant forall j :: 0 <= j < i ==> View()[j].name != name
      {
        i := i + 1;
      }
      PlaceFirst(View(), name, i);
    }

    method FindCookie(name: string) returns (cookie: Cookie?)
      ensures var k := Place(View(), name);
              if k < |cookielist| then cookie == cookielist[k] else cookie == null
    {
      var i := FindPlace(name);
      cookie := if i < |cookielist| then cookielist[i] else null;
    }

    method SetInPlace(cookie: Cookie, value: string, ghost k: nat)
      requires Valid() && k < |cookielist| && cookielist[k] == cookie && value != ""
      modifies cookie`value
      ensures View() == old(View())[k := Pair(cookie.name, value)]
    {
      forall i | 0 <= i < |cookielist| && i != k ensures cookielist[i] != cookie {
        assert View()[i].name != View()[k].name;
      }
      cookie.value := value;
    }

    method Append(name: string, value: string)
      modifies this
      ensures View() == old(View()) + [Pair(name, value)]
      ensures forall c :: c in cookielist ==> c in old(cookielist) || fresh(c)
    {
      var cookie := new Cookie(name, value);
      cookielist := cookielist + [cookie];
    }

    /** A new cookie, once there is room for the struct. */
    method Fill(ws: Workspace, name: string, value: string) returns (ghost failed: bool)
      modifies this, ws
      ensures View() == if failed then old(View()) else old(View()) + [Pair(name, value)]
      ensures ws.overflow == (old(ws.overflow) || failed)
      ensures forall c :: c in cookielist ==> c in old(cookielist) || fresh(c)
    {
      var named := ws.Alloc();
      var valued := ws.Alloc();
      failed := !named || !valued;
      if named && valued {
        Append(name, value);
      }
    }

    /** vmod_set: the store stays as it was when the workspace has `failed` in this
        call, which it remembers. */
    method Set(ws: Workspace, name: VclString, value: VclString) returns (ghost failed: bool)
      requires Valid()
      modifies this, cookielist`value, ws
      ensures Valid()
      ensures if failed then View() == old(View()) else View() == CookieStore.Set(old(View()), Text(name), Text(value))
      ensures ws.overflow == (old(ws.overflow) || failed)
      ensures forall c :: c in cookielist ==> c in old(cookielist) || fresh(c)
    {
      failed := false;
      if name.Null? || name.s == "" || value.Null? || value.s == "" {
        return;
      }
      SetKeepsStored(View(), name.s, value.s);
      var cookie := FindCookie(name.s);
      var ok := ws.Alloc();
      if cookie != null {
        if ok {
          SetInPlace(cookie, value.s, Place(View(), name.s));
        }
        failed := !ok;
        return;
      }
      failed := !ok;
      if ok {
        failed := Fill(ws, name.s, value.s);
      }
    }

    /** vmod_isset. */
    method IsSet(name: VclString) returns (r: bool)
      requires Valid()
      ensures r <==> Text(name) in Names(View())
    {
      if name.Null? || name.s == "" {
        return false;
      }
      var cookie := FindCookie(name.s);
      PlaceIsName(View(), name.s);
      r := cookie != null;
    }

    /** vmod_get: null exactly when the name is not set. */
    method Get(name: VclString) returns (r: VclString)
      requires Valid()
      ensures r.Null? <==> Text(name) !in Names(View())
      ensures Text(r) == CookieStore.Get(View(), Text(name))
    {
      if name.Null? || name.s == "" {
        return Null;
      }
      var cookie := FindCookie(name.s);
      PlaceIsName(View(), name.s);
      r := if cookie == null then Null else Str(cookie.value);
    }

    /** vmod_delete. */
    method Delete(name: VclString)
      requires Valid()
      modifies this
      ensures Valid() && View() == CookieStore.Delete(old(View()), Text(name))
      ensures forall c :: c in cookielist ==> c in old(cookielist)
    {
      DeleteKeepsStored(View(), Text(name));
      if name.Null? || name.s == "" {
        PlaceIsName(View(), "");
        return;
      }
      var k := FindPlace(name.s);
      assert k == Place(View(), name.s);
      if k < |cookielist| {
        Unlink(k);
      }
    }

    /** VTAILQ_REMOVE of the cookie at `k`. */
    method Unlink(k: nat)
      requires k < |cookielist|
      modifies this
      ensures View() == old(View())[..k] + old(View())[k + 1..]
      ensures forall c :: c in cookielist ==> c in old(cookielist)
    {
      cookielist := cookielist[..k] + cookielist[k + 1..];
    }

    /** vmod_clean. */
    method Clean()
      modifies this
      ensures Valid() && View() == [] && cookielist == []
    {
      cookielist := [];
    }

    /** One round of vmod_parse, from the text at `p`: where the next round starts,
        or no next round. */
    method ParseOne(ws: Workspace, h: string, p: nat) returns (more: bool, next: nat)
      requires Valid() && p < |h|
      modifies this, cookielist`value, ws
      ensures Valid() && next <= |h| && (more ==> p < next)
      ensures !ws.overflow ==>
          SetAll(View(), if more then T.Scan(h[next..]) else []) == SetAll(old(View()), T.Scan(h[p..]))
      ensures old(ws.overflow) ==> ws.overflow
      ensures forall c :: c in cookielist ==> c in old(cookielist) || fresh(c)
    {
      var q := T.SkipSpaces(h, p);
      var sep := Find(h, q, '=');
      if sep == |h| {
        T.ScanNothing(h, p, q);
        return false, p;
      }
      var end := Find(h, sep + 1, ';');
      T.ScanPair(h, p, q, sep, end);
      ghost var failed := Set(ws, Str(h[q..sep]), Str(h[sep + 1..end]));
      more, next := end < |h|, if end < |h| then end + 1 else end;
    }

    /** vmod_parse. */
    method Parse(ws: Workspace, header: VclString)
      requires Valid()
      modifies this, cookielist`value, ws
      ensures Valid()
      ensures !ws.overflow ==> View() == T.Parse(old(View()), Text(header))
      ensures forall c :: c in cookielist ==> c in old(cookielist) || fresh(c)
    {
      if header.Null? || header.s == "" {
        return;
      }
      if cookielist != [] {
        Clean();
      }
      var h := header.s;
      var p, more := 0, true;
      assert h[0..] == h;
      while more && p < |h|
        invariant p <= |h| && Valid()
        invariant !ws.overflow ==> SetAll(View(), if more then T.Scan(h[p..]) else []) == SetAll([], T.Scan(h))
        invariant forall c :: c in cookielist ==> c in old(cookielist) || fresh(c)
        decreases more, |h| - p
      {
        assert forall i :: 0 <= i < |cookielist| ==> cookielist[i] in old(cookielist) || fresh(cookielist[i]);
        more, p := ParseOne(ws, h, p);
      }
    }

    /** Whether the inner loop of filter_cookies finds the name in the list. */
    static method Listed(name: string, names: seq<string>) returns (matched: bool)
      ensures matched <==> name in names
    {
      matched := false;
      var i := 0;
      while i < |names|
        invariant 0 <= i <= |names| && name !in names[..i]
      {
        if names[i] == name {
          return true;
        }
        i := i + 1;
      }
    }

    /** The walk of filter_cookies: a removal continues at the successor. */
    method FilterWalk(names: seq<string>, keep: bool)
      modifies this
      ensures View() == Select(old(View()), names, keep)
      ensures forall c :: c in cookielist ==> c in old(cookielist)
    {
      var i := 0;
      assert View()[..0] == [] && View()[0..] == View();
      while i < |cookielist|
        invariant 0 <= i <= |cookielist|
        invariant View()[..i] + Select(View()[i..], names, keep) == Select(old(View()), names, keep)
        invariant forall c :: c in cookielist ==> c in old(cookielist)
        decreases |cookielist| - i
      {
        var matched := Listed(cookielist[i].name, names);
        if matched != keep {
          RemoveAt(i, names, keep);
        } else {
          KeepAt(View(), i, names, keep);
          i := i + 1;
        }
      }
      assert View()[..i] == View() && View()[i..] == [] && View() + [] == View();
    }

    /** filter_cookies: what is left are exactly the cookies whose presence in the
        list is `keep`. */
    method FilterCookies(list: VclString, keep: bool)
      requires Valid()
      modifies this
      ensures Valid() && View() == Select(old(View()), L.ListNames(Text(list)), keep)
      ensures forall c :: c in cookielist ==> c in old(cookielist)
    {
      L.NoNames();
      var names := [];
      if list.Str? {
        names := L.ReadList(list.s);
      }
      SelectKeepsStored(View(), names, keep);
      FilterWalk(names, keep);
    }

    /** vmod_filter_except. */
    method FilterExcept(list: VclString)
      requires Valid()
      modifies this
      ensures Valid() && View() == Select(old(View()), L.ListNames(Text(list)), true)
    {
      FilterCookies(list, true);
    }

    /** vmod_filter. */
    method Filter(list: VclString)
      requires Valid()
      modifies this
      ensures Valid() && View() == Select(old(View()), L.ListNames(Text(list)), false)
    {
      FilterCookies(list, false);
    }

    /** vmod_get_string: null only when the workspace fails. */
    method GetString(ws: Workspace) returns (r: VclString)
      requires Valid()
      modifies ws
      ensures r.Null? ==> ws.overflow
      ensures r.Str? ==> r.s == T.Print(View())
      ensures old(ws.overflow) ==> ws.overflow
    {
      var output := "";
      var i := 0;
      while i < |cookielist|
        invariant 0 <= i <= |cookielist| && ws.overflow == old(ws.overflow)
        invariant T.Printing(View(), i, output)
      {
        var curr := cookielist[i];
        var field := curr.name + "=" + curr.value + ";";
        T.PrintNext(View(), i, output);
        assert field == T.Field(View()[i]);
        if i == 0 {
          output := field;
        } else {
          output := output + " " + field;
        }
        i := i + 1;
      }
      T.PrintDone(View(), output);
      var ok := ws.Alloc();
      r := if ok then Str(output) else Null;
    }

    /** VTAILQ_REMOVE of the cookie at `i`; the walk goes on at its successor. */
    method RemoveAt(i: nat, ghost names: seq<string>, ghost keep: bool)
      requires i < |cookielist| && (cookielist[i].name in names) != keep
      modifies this
      ensures cookielist == old(cookielist)[..i] + old(cookielist)[i + 1..]
      ensures View()[..i] == old(View())[..i]
      ensures Select(View()[i..], names, keep) == Select(old(View())[i..], names, keep)
    {
      ghost var was := View();
      cookielist := cookielist[..i] + cookielist[i + 1..];
      assert View()[i..] == was[i..][1..];
    }
  }
}
