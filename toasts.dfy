/** The notification queue of dashboard-agente/src/components/Toast.jsx: a list of
    toasts shown in insertion order, each with its own 3000 ms removal timer. The
    clock (`Date.now()`) is a parameter, and each timer firing is an explicit event. */
module Toasts {
  import opened Wrappers

  datatype Kind = Success | Error | Info

  datatype Toast = Toast(id: int, message: string, kind: Kind)

  /** A pending `setTimeout(() => removeToast(id), 3000)`, due at time `due`. */
  datatype Timer = Timer(id: int, due: int)

  /** How long a toast stays, in milliseconds. */
  const Lifetime: int := 3000

  /** `prev.filter((toast) => toast.id !== id)`. */
  function WithoutId(ts: seq<Toast>, id: int): (r: seq<Toast>)
    ensures |r| <= |ts|
    ensures forall t :: t in r <==> t in ts && t.id != id
  {
    if ts == [] then []
    else (if ts[0].id != id then [ts[0]] else []) + WithoutId(ts[1..], id)
  }

  /** Removing an id no toast carries is a no-op. */
  lemma {:induction false} WithoutAbsentId(ts: seq<Toast>, id: int)
    requires forall t :: t in ts ==> t.id != id
    ensures WithoutId(ts, id) == ts
  {
    if ts != [] {
      WithoutAbsentId(ts[1..], id);
    }
  }

  /** Removing the same id twice is the same as removing it once. */
  lemma WithoutIdIdempotent(ts: seq<Toast>, id: int)
    ensures WithoutId(WithoutId(ts, id), id) == WithoutId(ts, id)
  {
    WithoutAbsentId(WithoutId(ts, id), id);
  }

  /** Removal keeps the surviving toasts in their original order. */
  lemma {:induction false} WithoutIdConcat(xs: seq<Toast>, ys: seq<Toast>, id: int)
    ensures WithoutId(xs + ys, id) == WithoutId(xs, id) + WithoutId(ys, id)
  {
    if xs == [] {
      assert xs + ys == ys;
    } else {
      assert (xs + ys)[0] == xs[0] && (xs + ys)[1..] == xs[1..] + ys;
      WithoutIdConcat(xs[1..], ys, id);
      var head := if xs[0].id != id then [xs[0]] else [];
      assert WithoutId(xs + ys, id) == head + WithoutId(xs[1..] + ys, id);
    }
  }

  /** Removal looks at the first toast, then at the rest. */
  lemma WithoutIdCons(t: Toast, ys: seq<Toast>, id: int)
    ensures WithoutId([t] + ys, id) == if t.id != id then [t] + WithoutId(ys, id) else WithoutId(ys, id)
  {
    assert ([t] + ys)[0] == t && ([t] + ys)[1..] == ys;
  }

  /** Removals of two ids commute, so the order in which timers and dismissals fire
      does not change which toasts remain. */
  lemma {:induction false} WithoutIdCommutes(ts: seq<Toast>, a: int, b: int)
    ensures WithoutId(WithoutId(ts, a), b) == WithoutId(WithoutId(ts, b), a)
  {
    if ts != [] {
      var t, ys := ts[0], ts[1..];
      assert ts == [t] + ys;
      WithoutIdCommutes(ys, a, b);
      WithoutIdCons(t, ys, a);
      WithoutIdCons(t, ys, b);
      WithoutIdCons(t, WithoutId(ys, a), b);
      WithoutIdCons(t, WithoutId(ys, b), a);
    }
  }

  /** The state `ToastProvider` keeps, and the timers it has scheduled. */
  class ToastCenter {
    var toasts: seq<Toast>
    var timers: seq<Timer>

    /** Every toast on screen still has a removal timer of its id pending, and every
        timer is due `Lifetime` after the moment its id was taken. */
    ghost predicate Valid()
      reads this
    {
      && (forall t :: t in toasts ==> exists m :: m in timers && m.id == t.id)
      && (forall m :: m in timers ==> m.due == m.id + Lifetime)
    }

    constructor ()
      ensures Valid() && toasts == [] && timers == []
    {
      toasts := [];
      timers := [];
    }

    /** `addToast(message, type = 'success')` at time `now`: append one toast whose id
        is the current time and schedule its removal. */
    method AddToast(message: string, kind: Option<Kind>, now: int)
      requires Valid()
      modifies this
      ensures Valid()
      ensures toasts == old(toasts) + [Toast(now, message, kind.GetOr(Kind.Success))]
      ensures timers == old(timers) + [Timer(now, now + Lifetime)]
    {
      var timer := Timer(now, now + Lifetime);
      toasts := toasts + [Toast(now, message, kind.GetOr(Kind.Success))];
      timers := timers + [timer];
      assert timer in timers;
    }

    /** `removeToast(id)`, as the close button calls it. */
    method RemoveToast(id: int)
      requires Valid()
      modifies this`toasts
      ensures Valid()
      ensures toasts == WithoutId(old(toasts), id)
      ensures (forall t :: t in old(toasts) ==> t.id != id) ==> toasts == old(toasts)
    {
      if forall t :: t in toasts ==> t.id != id {
        WithoutAbsentId(toasts, id);
      }
      toasts := WithoutId(toasts, id);
    }

    /** The `k`-th pending timer fires: it is gone, and so is every toast with its id;
        if the toast was dismissed already, nothing else changes. */
    method Expire(k: nat)
      requires Valid()
      requires k < |timers|
      modifies this
      ensures Valid()
      ensures timers == old(timers[..k] + timers[k + 1..])
      ensures toasts == WithoutId(old(toasts), old(timers[k].id))
      ensures forall t :: t in toasts ==> t.id != old(timers[k].id)
      ensures (forall t :: t in old(toasts) ==> t.id != old(timers[k].id)) ==> toasts == old(toasts)
    {
      var fired := timers[k];
      ghost var before := timers;
      timers := timers[..k] + timers[k + 1..];
      forall m | m in before && m.id != fired.id
        ensures m in timers
      {
        var j :| 0 <= j < |before| && before[j] == m;
        assert j != k;
        if j < k {
          assert timers[j] == m;
        } else {
          assert timers[j - 1] == m;
        }
      }
      if forall t :: t in toasts ==> t.id != fired.id {
        WithoutAbsentId(toasts, fired.id);
      }
      toasts := WithoutId(toasts, fired.id);
    }
  }

  /** `useToast()`: the provider's value, or the error thrown outside a provider. */
  function UseToast(context: Option<ToastCenter>): (r: Result<ToastCenter, string>)
    ensures r.Failure? <==> context.None?
    ensures r.Success? ==> r.value == context.value
    ensures r.Failure? ==> r.error == "useToast must be used within ToastProvider"
  {
    match context
    case None => Wrappers.Failure("useToast must be used within ToastProvider")
    case Some(c) => Wrappers.Success(c)
  }

  /** Two toasts added in the same millisecond share an id: the first timer to fire
      removes both. */
  method SameMillisecondCollision(now: int) returns (left: seq<Toast>)
    ensures left == []
  {
    var center := new ToastCenter();
    center.AddToast("Artigo salvo!", None, now);
    center.AddToast("Erro ao salvar artigo", Some(Error), now);
    center.Expire(0);
    left := center.toasts;
  }
}
