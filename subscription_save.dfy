/**
 The profile-save hook (`meta_form_save`): for each of the plugin's meta
 keys it reads the posted value and the stored value, then deletes the
 stored value, overwrites it, or leaves it alone.

 The save rule is specified as a function over the store's entries
 (`SaveKey` for one key, `SaveAll` folded over the key list, `Saved` with
 the capability guard); `MetaFormSave` is the loop itself, proved against
 that specification, and the lemmas below state what the rule promises.
 */
module SubscriptionSave {
  import opened UserMeta

  /** The one meta key the plugin owns. */
  const SubscriptionKey: string := "cc_subscription"

  /** The keys the save loop walks over. */
  const MetaKeys: seq<string> := [SubscriptionKey]

  /** PHP's `empty()` on a string, which is also PHP's falsiness of a
      string: both "" and "0" count as empty. */
  predicate IsEmpty(s: string)
  {
    s == "" || s == "0"
  }

  predicate Distinct(keys: seq<string>)
  {
    forall i, j :: 0 <= i < j < |keys| ==> keys[i] != keys[j]
  }

  /** `new_value`: the posted field when it is present and non-empty,
      otherwise "". */
  function SubmittedValue(post: map<string, string>, key: string): (v: string)
    ensures v == "" || !IsEmpty(v)
    ensures v != "" <==> key in post && !IsEmpty(post[key])
    ensures v != "" ==> v == post[key]
  {
    if key in post && !IsEmpty(post[key]) then post[key] else ""
  }

  /** What the save rule does to one stored value. */
  datatype Action = Delete | Update(value: string) | Keep

  /** The decision of the save loop's body, given the new and the old value. */
  function Decide(newValue: string, oldValue: string): (a: Action)
    ensures a == Delete <==> IsEmpty(newValue) && !IsEmpty(oldValue)
    ensures a.Update? <==> !IsEmpty(newValue) && newValue != oldValue
    ensures a.Update? ==> a.value == newValue
    ensures a == Keep <==> (IsEmpty(newValue) && IsEmpty(oldValue)) || newValue == oldValue
  {
    if IsEmpty(newValue) && !IsEmpty(oldValue) then
      Delete
    else if !IsEmpty(newValue) && (oldValue == "" || newValue != oldValue) then
      Update(newValue)
    else
      Keep
  }

  /** The decision for one key, with the old value read from the store under
      that same key. (The original reads the old value under an undefined
      variable instead of the loop key; see `SaveActionAsWritten`.) */
  function SaveAction(e: Entries, user: int, post: map<string, string>, key: string): (a: Action)
    ensures Get(e, user, key) == SubmittedValue(post, key) ==> a == Keep
    ensures a.Update? ==> key in post && a.value == post[key] && a.value != Get(e, user, key)
    ensures a == Delete ==> (user, key) in e && !IsEmpty(e[(user, key)])
  {
    Decide(SubmittedValue(post, key), Get(e, user, key))
  }

  /** The store after an action on one entry. */
  function Apply(e: Entries, user: int, key: string, a: Action): Entries
  {
    match a
    case Delete => e - {(user, key)}
    case Update(v) => e[(user, key) := v]
    case Keep => e
  }

  /** The store calls an action issues. */
  function CallsOf(user: int, key: string, a: Action): seq<Call>
  {
    match a
    case Delete => [DeleteCall(user, key)]
    case Update(v) => [UpdateCall(user, key, v)]
    case Keep => []
  }

  /** One iteration of the save loop. */
  function SaveKey(e: Entries, user: int, post: map<string, string>, key: string): Entries
  {
    Apply(e, user, key, SaveAction(e, user, post, key))
  }

  /** The save loop run over `keys`, first to last. */
  function SaveAll(e: Entries, user: int, post: map<string, string>, keys: seq<string>): Entries
    decreases |keys|
  {
    if keys == [] then e
    else SaveKey(SaveAll(e, user, post, keys[..|keys| - 1]), user, post, keys[|keys| - 1])
  }

  /** The store calls the save loop issues over `keys`, in order. */
  function CallsAll(e: Entries, user: int, post: map<string, string>, keys: seq<string>): seq<Call>
    decreases |keys|
  {
    if keys == [] then []
    else
      var prefix := keys[..|keys| - 1];
      var key := keys[|keys| - 1];
      CallsAll(e, user, post, prefix)
        + CallsOf(user, key, SaveAction(SaveAll(e, user, post, prefix), user, post, key))
  }

  /** The whole hook: nothing happens without the capability. */
  function Saved(e: Entries, canEdit: bool, user: int, post: map<string, string>): Entries
  {
    if canEdit then SaveAll(e, user, post, MetaKeys) else e
  }

  function SaveCalls(e: Entries, canEdit: bool, user: int, post: map<string, string>): seq<Call>
  {
    if canEdit then CallsAll(e, user, post, MetaKeys) else []
  }

  /** `meta_form_save`. `canEdit` is the result of the capability check
      (`current_user_can('delete_others_pages')`), `post` the submitted form. */
  method MetaFormSave(store: MetaStore, canEdit: bool, userId: int, post: map<string, string>)
    modifies store
    ensures store.entries == Saved(old(store.entries), canEdit, userId, post)
    ensures store.calls == old(store.calls) + SaveCalls(old(store.entries), canEdit, userId, post)
  {
    if !canEdit {
      return;
    }
    ghost var e0 := store.entries;
    var keys := MetaKeys;
    for i := 0 to |keys|
      invariant store.entries == SaveAll(e0, userId, post, keys[..i])
      invariant store.calls == old(store.calls) + CallsAll(e0, userId, post, keys[..i])
    {
      var key := keys[i];
      assert keys[..i + 1][..i] == keys[..i];
      var newValue := if key in post && !IsEmpty(post[key]) then post[key] else "";
      var oldValue := store.Read(userId, key);
      if IsEmpty(newValue) && !IsEmpty(oldValue) {
        store.Delete(userId, key);
      } else if !IsEmpty(newValue) && (oldValue == "" || newValue != oldValue) {
        store.Update(userId, key, newValue);
      }
    }
    assert keys[..|keys|] == MetaKeys;
  }

  // ---------------------------------------------------------------------
  // Properties of the save rule

  /** Without the capability the store is not touched and no call is made. */
  lemma SaveWithoutCapability(e: Entries, user: int, post: map<string, string>)
    ensures Saved(e, false, user, post) == e
    ensures SaveCalls(e, false, user, post) == []
  {
  }

  /** The loop changes only the entries of `user` under the keys it walks. */
  lemma {:induction false} SaveAllFrame(e: Entries, user: int, post: map<string, string>,
                                        keys: seq<string>, p: (int, string))
    requires p.0 != user || p.1 !in keys
    ensures p in SaveAll(e, user, post, keys) <==> p in e
    ensures p in e ==> SaveAll(e, user, post, keys)[p] == e[p]
  {
    if keys != [] {
      var prefix := keys[..|keys| - 1];
      assert keys == prefix + [keys[|keys| - 1]];
      SaveAllFrame(e, user, post, prefix, p);
    }
  }

  /** The hook changes at most the subscription entry of the given user:
      every other user and every other key keeps its presence and value. */
  lemma SaveFrame(e: Entries, canEdit: bool, user: int, post: map<string, string>, p: (int, string))
    requires p != (user, SubscriptionKey)
    ensures p in Saved(e, canEdit, user, post) <==> p in e
    ensures p in e ==> Saved(e, canEdit, user, post)[p] == e[p]
  {
    if canEdit {
      SaveAllFrame(e, user, post, MetaKeys, p);
    }
  }

  /** Running the loop over the single key list is one iteration. */
  lemma SaveIsOneStep(e: Entries, user: int, post: map<string, string>)
    ensures Saved(e, true, user, post) == SaveKey(e, user, post, SubscriptionKey)
    ensures SaveCalls(e, true, user, post)
         == CallsOf(user, SubscriptionKey, SaveAction(e, user, post, SubscriptionKey))
  {
    assert MetaKeys[..|MetaKeys| - 1] == [] && MetaKeys[|MetaKeys| - 1] == SubscriptionKey;
    assert SaveAll(e, user, post, []) == e;
    assert CallsAll(e, user, post, []) == [];
  }

  /** An empty submission ("" or "0", or no field at all) deletes a stored
      value that is not itself empty, with one delete call; when nothing
      (or an empty value) is stored it changes nothing and calls nothing. */
  lemma SaveEmptySubmission(e: Entries, user: int, post: map<string, string>)
    requires SubscriptionKey !in post || IsEmpty(post[SubscriptionKey])
    ensures !IsEmpty(Get(e, user, SubscriptionKey)) ==>
              Saved(e, true, user, post) == e - {(user, SubscriptionKey)}
              && SaveCalls(e, true, user, post) == [DeleteCall(user, SubscriptionKey)]
    ensures IsEmpty(Get(e, user, SubscriptionKey)) ==>
              Saved(e, true, user, post) == e && SaveCalls(e, true, user, post) == []
    ensures (user, SubscriptionKey) !in Saved(e, true, user, post) <==> (user, SubscriptionKey) !in e || !IsEmpty(e[(user, SubscriptionKey)])
  {
    SaveIsOneStep(e, user, post);
  }

  /** A non-empty submission leaves exactly that value stored; an update call
      is made if and only if the stored value differs from it. */
  lemma SaveNonEmptySubmission(e: Entries, user: int, post: map<string, string>)
    requires SubscriptionKey in post && !IsEmpty(post[SubscriptionKey])
    ensures (user, SubscriptionKey) in Saved(e, true, user, post)
    ensures Saved(e, true, user, post)[(user, SubscriptionKey)] == post[SubscriptionKey]
    ensures SaveCalls(e, true, user, post)
         == if Get(e, user, SubscriptionKey) == post[SubscriptionKey] then []
            else [UpdateCall(user, SubscriptionKey, post[SubscriptionKey])]
  {
    SaveIsOneStep(e, user, post);
  }

  /** No stored subscription holds an empty value ("" or "0"). */
  ghost predicate NoEmptySubscription(e: Entries)
  {
    forall p :: p in e && p.1 == SubscriptionKey ==> !IsEmpty(e[p])
  }

  /** Saving never stores an empty value, so it keeps the invariant that an
      empty subscription is represented by the absence of the entry. */
  lemma SaveKeepsNoEmptySubscription(e: Entries, canEdit: bool, user: int, post: map<string, string>)
    requires NoEmptySubscription(e)
    ensures NoEmptySubscription(Saved(e, canEdit, user, post))
  {
    var s := Saved(e, canEdit, user, post);
    forall p | p in s && p.1 == SubscriptionKey
      ensures !IsEmpty(s[p])
    {
      if p == (user, SubscriptionKey) {
        if canEdit {
          SaveIsOneStep(e, user, post);
        }
      } else {
        SaveFrame(e, canEdit, user, post, p);
      }
    }
  }

  // ---------------------------------------------------------------------
  // Idempotence: a second save with the same form changes nothing and
  // makes no store call.

  /** After one iteration for `key`, the decision for `key` is to keep. */
  lemma SaveKeySettles(e: Entries, user: int, post: map<string, string>, key: string)
    ensures SaveAction(SaveKey(e, user, post, key), user, post, key) == Keep
  {
  }

  /** The stored value left for `key` depends only on the value read for it. */
  lemma SaveKeyLocal(e1: Entries, e2: Entries, user: int, post: map<string, string>, key: string)
    requires Get(e1, user, key) == Get(e2, user, key)
    ensures SaveAction(e1, user, post, key) == SaveAction(e2, user, post, key)
    ensures Get(SaveKey(e1, user, post, key), user, key) == Get(SaveKey(e2, user, post, key), user, key)
  {
  }

  /** Over distinct keys, the value the loop leaves under `key` is the one a
      single iteration for `key` leaves. */
  lemma {:induction false} SaveAllAt(e: Entries, user: int, post: map<string, string>,
                                     keys: seq<string>, key: string)
    requires Distinct(keys) && key in keys
    ensures Get(SaveAll(e, user, post, keys), user, key) == Get(SaveKey(e, user, post, key), user, key)
  {
    var prefix := keys[..|keys| - 1];
    var last := keys[|keys| - 1];
    assert keys == prefix + [last];
    var before := SaveAll(e, user, post, prefix);
    if key == last {
      assert key !in prefix by {
        forall i | 0 <= i < |prefix| ensures prefix[i] != key {
          assert prefix[i] == keys[i];
        }
      }
      SaveAllFrame(e, user, post, prefix, (user, key));
      SaveKeyLocal(before, e, user, post, key);
    } else {
      assert key in prefix;
      assert Distinct(prefix) by {
        forall i, j | 0 <= i < j < |prefix| ensures prefix[i] != prefix[j] {
          assert prefix[i] == keys[i] && prefix[j] == keys[j];
        }
      }
      SaveAllAt(e, user, post, prefix, key);
    }
  }

  /** Over distinct keys, the loop leaves every key settled. */
  lemma {:induction false} SaveAllSettles(e: Entries, user: int, post: map<string, string>, keys: seq<string>, key: string)
    requires Distinct(keys) && key in keys
    ensures SaveAction(SaveAll(e, user, post, keys), user, post, key) == Keep
  {
    SaveAllAt(e, user, post, keys, key);
    SaveKeySettles(e, user, post, key);
    SaveKeyLocal(SaveAll(e, user, post, keys), SaveKey(e, user, post, key), user, post, key);
  }

  /** On a store where every key is settled, the loop changes nothing and
      makes no call. */
  lemma {:induction false} SaveAllFixpoint(s: Entries, user: int, post: map<string, string>, keys: seq<string>)
    requires forall key :: key in keys ==> SaveAction(s, user, post, key) == Keep
    ensures SaveAll(s, user, post, keys) == s
    ensures CallsAll(s, user, post, keys) == []
  {
    if keys != [] {
      var prefix := keys[..|keys| - 1];
      assert keys == prefix + [keys[|keys| - 1]];
      SaveAllFixpoint(s, user, post, prefix);
    }
  }

  /** Over distinct keys, running the loop a second time with the same form
      changes nothing and makes no call. */
  lemma SaveAllIdempotent(e: Entries, user: int, post: map<string, string>, keys: seq<string>)
    requires Distinct(keys)
    ensures SaveAll(SaveAll(e, user, post, keys), user, post, keys) == SaveAll(e, user, post, keys)
    ensures CallsAll(SaveAll(e, user, post, keys), user, post, keys) == []
  {
    var s := SaveAll(e, user, post, keys);
    forall key | key in keys
      ensures SaveAction(s, user, post, key) == Keep
    {
      SaveAllSettles(e, user, post, keys, key);
    }
    SaveAllFixpoint(s, user, post, keys);
  }

  /** Submitting the same form twice has the effect of submitting it once,
      and the second submission makes no store call. */
  lemma SaveIdempotent(e: Entries, canEdit: bool, user: int, post: map<string, string>)
    ensures Saved(Saved(e, canEdit, user, post), canEdit, user, post) == Saved(e, canEdit, user, post)
    ensures SaveCalls(Saved(e, canEdit, user, post), canEdit, user, post) == []
  {
    if canEdit {
      SaveAllIdempotent(e, user, post, MetaKeys);
    }
  }

  // ---------------------------------------------------------------------
  // The old-value lookup as written

  /** One iteration as written: the old value is whatever the lookup under
      the undefined variable returns (`lookedUp`), not the value stored under
      the loop key. */
  function SaveActionAsWritten(post: map<string, string>, key: string, lookedUp: string): (a: Action)
    ensures a.Update? <==> !IsEmpty(SubmittedValue(post, key)) && SubmittedValue(post, key) != lookedUp
  {
    Decide(SubmittedValue(post, key), lookedUp)
  }

  /** As written, re-saving the value that is already stored issues an update
      call whenever the lookup does not return that stored value, while the
      corrected rule keeps it. */
  lemma AsWrittenUpdatesEqualValue()
    ensures var e: Entries := map[(7, SubscriptionKey) := "2024-01-01"];
            var post := map[SubscriptionKey := "2024-01-01"];
            && SaveActionAsWritten(post, SubscriptionKey, "") == Update("2024-01-01")
            && SaveAction(e, 7, post, SubscriptionKey) == Keep
  {
  }
}
