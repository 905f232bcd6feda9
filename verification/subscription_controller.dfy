/** `controllers/subscription.controller.js`: the subscriptions an entity can choose from. */
module SubscriptionController {
  import opened Wrappers
  import opened Tables

  /** A listed subscription; `features` is present only when they were asked for. */
  datatype SubscriptionView = SubscriptionView(id: Id, key: string, caption: string, features: Option<seq<string>>)

  const GLOBAL_KEY := "global"

  /** The prefix of the error `getSubscriptions` rethrows with status 500. */
  const SUBSCRIPTIONS_ERROR := "Could not fetch subscriptions. "

  function Selectable(s: Keyed<Subscription>): bool
  {
    s.row.key != GLOBAL_KEY
  }

  function View(s: Keyed<Subscription>, includeFeatures: bool): (v: SubscriptionView)
    ensures v.id == s.id && v.key == s.row.key && v.caption == s.row.caption
    ensures v.features.Some? <==> includeFeatures
    ensures includeFeatures ==> v.features == Some(s.row.features)
  {
    SubscriptionView(s.id, s.row.key, s.row.caption, if includeFeatures then Some(s.row.features) else None)
  }

  function Views(ss: seq<Keyed<Subscription>>, includeFeatures: bool): (vs: seq<SubscriptionView>)
    ensures |vs| == |ss|
    ensures forall i :: 0 <= i < |ss| ==> vs[i] == View(ss[i], includeFeatures)
  {
    if ss == [] then [] else [View(ss[0], includeFeatures)] + Views(ss[1..], includeFeatures)
  }

  /**
   * `getSubscriptions({ includeFeatures })`, whose default is `false`: every subscription but the
   * `global` one, in table order. `queryError` is the error the query throws, if any.
   */
  function GetSubscriptions(subscriptions: Table<Subscription>, includeFeatures: bool, queryError: Option<string>)
    : (r: Result<seq<SubscriptionView>>)
    ensures r.Err? <==> queryError.Some?
    ensures r.Err? ==> r.error == Status(500, SUBSCRIPTIONS_ERROR + queryError.value)
  {
    match queryError
    case Some(e) => Err(Status(500, SUBSCRIPTIONS_ERROR + e))
    case None => Ok(Views(Select(subscriptions, Selectable), includeFeatures))
  }

  /** The listing keeps the table's order of ids. */
  lemma ListedInOrder(subscriptions: Table<Subscription>, includeFeatures: bool)
    ensures var vs := Views(Select(subscriptions, Selectable), includeFeatures);
      forall i, j :: 0 <= i < j < |vs| ==> vs[i].id < vs[j].id
  {
    var ss := Select(subscriptions, Selectable);
    var vs := Views(ss, includeFeatures);
    assert forall i :: 0 <= i < |vs| ==> vs[i].id == ss[i].id;
  }

  /** Every listed subscription is a stored one other than `global`, shown as it is stored. */
  lemma ListedAreSelectable(subscriptions: Table<Subscription>, includeFeatures: bool)
    ensures var vs := Views(Select(subscriptions, Selectable), includeFeatures);
      forall i :: 0 <= i < |vs| ==>
        && vs[i].id in subscriptions.rows && vs[i].key != GLOBAL_KEY
        && vs[i] == View(Keyed(vs[i].id, subscriptions.rows[vs[i].id]), includeFeatures)
  {
    var ss := Select(subscriptions, Selectable);
    var vs := Views(ss, includeFeatures);
    forall i | 0 <= i < |vs|
      ensures vs[i].id in subscriptions.rows && vs[i].key != GLOBAL_KEY
      ensures vs[i] == View(Keyed(vs[i].id, subscriptions.rows[vs[i].id]), includeFeatures)
    {
      assert Selectable(ss[i]);
    }
  }

  /** Every stored subscription other than `global` is listed. */
  lemma SelectableAreListed(subscriptions: Table<Subscription>, includeFeatures: bool, vs: seq<SubscriptionView>)
    requires vs == Views(Select(subscriptions, Selectable), includeFeatures)
    ensures forall k :: k in subscriptions.rows && subscriptions.rows[k].key != GLOBAL_KEY ==>
      exists i :: 0 <= i < |vs| && vs[i].id == k
  {
    var ss := Select(subscriptions, Selectable);
    forall k | k in subscriptions.rows && subscriptions.rows[k].key != GLOBAL_KEY
      ensures exists i :: 0 <= i < |vs| && vs[i].id == k
    {
      var x := Keyed(k, subscriptions.rows[k]);
      assert Selectable(x);
      assert x in ss;
      var i :| 0 <= i < |ss| && ss[i] == x;
      assert vs[i] == View(x, includeFeatures);
    }
  }

  /**
   * The listing leaves out exactly the `global` subscription, keeps the table's order, and carries
   * features only when they were asked for.
   */
  lemma GetSubscriptionsSpec(subscriptions: Table<Subscription>, includeFeatures: bool)
    ensures var vs := GetSubscriptions(subscriptions, includeFeatures, None).value;
      && (forall i, j :: 0 <= i < j < |vs| ==> vs[i].id < vs[j].id)
      && (forall i :: 0 <= i < |vs| ==>
            && vs[i].id in subscriptions.rows && vs[i].key != GLOBAL_KEY
            && vs[i] == View(Keyed(vs[i].id, subscriptions.rows[vs[i].id]), includeFeatures))
      && (forall k :: k in subscriptions.rows && subscriptions.rows[k].key != GLOBAL_KEY ==>
            exists i :: 0 <= i < |vs| && vs[i].id == k)
  {
    ListedInOrder(subscriptions, includeFeatures);
    ListedAreSelectable(subscriptions, includeFeatures);
    SelectableAreListed(subscriptions, includeFeatures, GetSubscriptions(subscriptions, includeFeatures, None).value);
  }
}
