/**
 * services/services/initial-services/Axios.js: `BaseService`, which every
 * service extends. It merges default headers into the request options and
 * hands requests to the shared HTTP client; here a method returns the
 * request it would hand over.
 */
module Axios {
  import opened Wrappers
  import opened Json

  type Entries = seq<(string, Value)>

  /** `key` is the key of one of the entries. */
  predicate HasKey(entries: Entries, key: string) {
    exists i :: 0 <= i < |entries| && entries[i].0 == key
  }

  /** `entries[key] = v`: an existing key keeps its place, a new one goes last. */
  function SetEntry(entries: Entries, key: string, v: Value): (r: Entries)
    ensures Lookup(r, key) == v
    ensures forall k :: k != key ==> Lookup(r, k) == Lookup(entries, k)
  {
    if |entries| == 0 then [(key, v)]
    else if entries[0].0 == key then [(key, v)] + entries[1..]
    else [entries[0]] + SetEntry(entries[1..], key, v)
  }

  /** Setting a key adds at most that key. */
  lemma {:induction false} SetEntryKeys(entries: Entries, key: string, v: Value)
    ensures forall k :: HasKey(SetEntry(entries, key, v), k) <==> HasKey(entries, k) || k == key
  {
    var r := SetEntry(entries, key, v);
    if |entries| == 0 {
      assert r[0].0 == key;
    } else if entries[0].0 == key {
      forall k ensures HasKey(r, k) <==> HasKey(entries, k) || k == key {
        if HasKey(entries, k) {
          var i :| 0 <= i < |entries| && entries[i].0 == k;
          assert r[i].0 == k;
        }
        if HasKey(r, k) {
          var i :| 0 <= i < |r| && r[i].0 == k;
          assert entries[i].0 == k;
        }
      }
    } else {
      var tail := entries[1..];
      SetEntryKeys(tail, key, v);
      ConsKeys(entries[0], tail);
      ConsKeys(entries[0], SetEntry(tail, key, v));
      assert entries == [entries[0]] + tail;
    }
  }

  /** The keys of an entry in front of others. */
  lemma ConsKeys(e: (string, Value), rest: Entries)
    ensures forall k :: HasKey([e] + rest, k) <==> k == e.0 || HasKey(rest, k)
  {
    var l := [e] + rest;
    forall k ensures HasKey(l, k) <==> k == e.0 || HasKey(rest, k) {
      if HasKey(rest, k) {
        var i :| 0 <= i < |rest| && rest[i].0 == k;
        assert l[i + 1].0 == k;
      }
      if HasKey(l, k) && k != e.0 {
        var i :| 0 <= i < |l| && l[i].0 == k;
        assert rest[i - 1].0 == k;
      }
      assert l[0].0 == e.0;
    }
  }

  /** Setting a key never repeats one. */
  lemma {:induction false} SetEntryDistinct(entries: Entries, key: string, v: Value)
    requires DistinctKeys(entries)
    ensures DistinctKeys(SetEntry(entries, key, v))
  {
    if |entries| > 0 && entries[0].0 != key {
      var tail := entries[1..];
      var rt := SetEntry(tail, key, v);
      SetEntryDistinct(tail, key, v);
      SetEntryKeys(tail, key, v);
      assert !HasKey(tail, entries[0].0) by {
        forall i | 0 <= i < |tail| ensures tail[i].0 != entries[0].0 {
          assert tail[i] == entries[i + 1];
        }
      }
      ConsDistinct(entries[0], rt);
    }
  }

  /** An entry in front of distinct others, with a key they do not have, keeps keys distinct. */
  lemma ConsDistinct(e: (string, Value), rest: Entries)
    requires DistinctKeys(rest) && !HasKey(rest, e.0)
    ensures DistinctKeys([e] + rest)
  {
    var l := [e] + rest;
    forall i, j | 0 <= i < j < |l| ensures l[i].0 != l[j].0 {
      if i == 0 {
        assert l[j] == rest[j - 1];
      } else {
        assert l[i] == rest[i - 1] && l[j] == rest[j - 1];
      }
    }
  }

  lemma SetEntryDistinctIf(entries: Entries, key: string, v: Value)
    ensures DistinctKeys(entries) ==> DistinctKeys(SetEntry(entries, key, v))
  {
    if DistinctKeys(entries) {
      SetEntryDistinct(entries, key, v);
    }
  }

  /** `Object.assign(target, source)`: the source's entries, in order, written over the target's. */
  function Assign(target: Entries, source: Entries): (r: Entries)
    ensures DistinctKeys(target) ==> DistinctKeys(r)
    decreases |source|
  {
    if |source| == 0 then target
    else
      SetEntryDistinctIf(target, source[0].0, source[0].1);
      Assign(SetEntry(target, source[0].0, source[0].1), source[1..])
  }

  /** A key of the source reads as the source has it; any other key as the target has it. */
  lemma {:induction false} AssignLookup(target: Entries, source: Entries, k: string)
    requires DistinctKeys(source)
    ensures Lookup(Assign(target, source), k) ==
      if HasKey(source, k) then Lookup(source, k) else Lookup(target, k)
    decreases |source|
  {
    if |source| > 0 {
      var t' := SetEntry(target, source[0].0, source[0].1);
      assert DistinctKeys(source[1..]);
      AssignLookup(t', source[1..], k);
      if source[0].0 == k {
        assert HasKey(source, k);
        assert !HasKey(source[1..], k) by {
          forall i | 0 <= i < |source[1..]| ensures source[1..][i].0 != k {
            assert source[1..][i] == source[i + 1];
          }
        }
      } else {
        assert HasKey(source, k) <==> HasKey(source[1..], k) by {
          if i :| 0 <= i < |source| && source[i].0 == k {
            assert source[1..][i - 1] == source[i];
          }
          if i :| 0 <= i < |source[1..]| && source[1..][i].0 == k {
            assert source[i + 1] == source[1..][i];
          }
        }
      }
    }
  }

  /** `"Bearer " + access_token`, where a falsy token becomes `null`. */
  function Authorization(token: Value): (h: string)
    ensures Truthy(token) ==> h == "Bearer " + ToJsString(token)
    ensures !Truthy(token) ==> h == "Bearer null"
  {
    "Bearer " + ToJsString(if Truthy(token) then token else Null)
  }

  /** The default `headers` object for a given token. */
  function DefaultHeaders(token: Value): (h: Entries)
    ensures DistinctKeys(h)
    ensures Lookup(h, "Authorization") == Str(Authorization(token))
    ensures Lookup(h, "Content-Type") == Lookup(h, "Accept") == Str("application/json")
    ensures Lookup(h, "Cache-Control") == Str("no-cache")
  {
    assert "Cache-Control"[1] != "Content-Type"[1];
    assert "Cache-Control"[0] != "Accept"[0] && "Cache-Control"[0] != "Authorization"[0];
    assert "Content-Type"[0] != "Accept"[0] && "Content-Type"[0] != "Authorization"[0];
    assert "Accept"[1] != "Authorization"[1];
    var h := [ ("Cache-Control", Str("no-cache")),
               ("Content-Type", Str("application/json")),
               ("Accept", Str("application/json")),
               ("Authorization", Str(Authorization(token))) ];
    assert h[1..][1..] == [h[2], h[3]];
    assert h[1..][1..][1..] == [h[3]];
    h
  }

  /**
   * `includeDefault(options)`: a `headers` entry first, then the options
   * copied over it; `None` stands for the omitted options, which default
   * to `{}`.
   */
  function IncludeDefault(options: Option<Entries>): (r: Entries)
    ensures DistinctKeys(r)
  {
    var opts := if options.Some? then options.value else [];
    Assign([("headers", Obj(DefaultHeaders(Lookup(opts, "token"))))], opts)
  }

  /**
   * Options without `headers` get the four default headers with the
   * token's bearer value; options that bring `headers` replace them all;
   * every option is passed on unchanged.
   */
  lemma IncludeDefaultLookup(options: Entries, k: string)
    requires DistinctKeys(options)
    ensures var r := IncludeDefault(Some(options));
      && (k != "headers" ==> Lookup(r, k) == Lookup(options, k))
      && (k == "headers" ==>
            Lookup(r, k) ==
              if HasKey(options, "headers") then Lookup(options, "headers")
              else Obj(DefaultHeaders(Lookup(options, "token"))))
  {
    var d := [("headers", Obj(DefaultHeaders(Lookup(options, "token"))))];
    AssignLookup(d, options, k);
    if !HasKey(options, k) {
      assert Lookup(options, k) == Undefined;
    }
  }

  /** With no options, only the default headers are sent, with `Bearer null`. */
  lemma NoOptionsNoToken()
    ensures IncludeDefault(None) == [("headers", Obj(DefaultHeaders(Undefined)))]
    ensures Authorization(Undefined) == "Bearer null"
  {
  }

  datatype Verb = GET | POST | PUT | DELETE

  /** A call on the shared client: verb, URL argument, body, and config. */
  datatype Request = Request(verb: Verb, url: Value, data: Option<Value>, config: Entries)

  /** `this.endPoint + "/" + id` */
  function ItemUrl(endPoint: Value, id: Value): (u: string)
    ensures var p, i := ToJsString(endPoint), ToJsString(id);
      |u| == |p| + 1 + |i| && Strings.StartsWith(u, p) && u[|p|] == '/' && u[|p| + 1..] == i
  {
    ToJsString(endPoint) + "/" + ToJsString(id)
  }

  class BaseService {
    /** Set by the constructor and never read. */
    var endpoint: string
    /** The path every request goes to; set by the concrete services. */
    var endPoint: Value

    /** The constructor sets `endpoint`, not `endPoint`, which stays `undefined`. */
    constructor ()
      ensures endpoint == "" && endPoint == Undefined
    {
      endpoint := "";
      endPoint := Undefined;
    }

    /** What a concrete service does before each request, e.g. `this.endPoint = "/get-teacher"`. */
    method SetEndPoint(path: string)
      modifies this
      ensures endPoint == Str(path) && endpoint == old(endpoint)
    {
      endPoint := Str(path);
    }

    method Get(options: Option<Entries>) returns (req: Request)
      ensures req == Request(GET, endPoint, None, IncludeDefault(options))
    {
      var opts := IncludeDefault(options);
      req := Request(GET, endPoint, None, opts);
    }

    method Post(data: Value, options: Option<Entries>) returns (req: Request)
      ensures req == Request(POST, endPoint, Some(data), IncludeDefault(options))
    {
      var opts := IncludeDefault(options);
      req := Request(POST, endPoint, Some(data), opts);
    }

    method Put(data: Value, options: Option<Entries>) returns (req: Request)
      ensures req == Request(PUT, endPoint, Some(data), IncludeDefault(options))
    {
      var opts := IncludeDefault(options);
      req := Request(PUT, endPoint, Some(data), opts);
    }

    method PutOne(id: Value, data: Value, options: Option<Entries>) returns (req: Request)
      ensures req == Request(PUT, Str(ItemUrl(endPoint, id)), Some(data), IncludeDefault(options))
    {
      var opts := IncludeDefault(options);
      req := Request(PUT, Str(ToJsString(endPoint) + "/" + ToJsString(id)), Some(data), opts);
    }

    method Delete(id: Value, options: Option<Entries>) returns (req: Request)
      ensures req == Request(DELETE, Str(ItemUrl(endPoint, id)), None, IncludeDefault(options))
    {
      var opts := IncludeDefault(options);
      req := Request(DELETE, Str(ToJsString(endPoint) + "/" + ToJsString(id)), None, opts);
    }
  }

  /** Before a concrete service sets the path, item URLs start with `undefined/`. */
  lemma UnsetEndPointUrl(id: Value)
    ensures Strings.StartsWith(ItemUrl(Undefined, id), "undefined/")
  {
    var u := ItemUrl(Undefined, id);
    assert u == "undefined/" + ToJsString(id);
    assert u[..10] == "undefined/";
  }

  /** Once set, an item URL is the path, a slash and the id's string form. */
  lemma SetEndPointUrl(path: string, id: Value)
    ensures ItemUrl(Str(path), id) == path + "/" + ToJsString(id)
  {
  }
}
