/** Message handles and the content blocks they share.

    A handle of a long message points to a content block.  The ghost fields of a block tell who refers to it:
    `holders` are the handles, `owed` counts references that were taken in advance for handles still to be
    made. */
module Messages {

  datatype Kind =
    | Closed       // no valid type
    | Plain        // vsm, cmsg, delimiter, join, leave: nothing is shared
    | Long         // lmsg
    | ZeroCopy     // zclmsg: the block itself belongs to somebody else

  class Content {
    var refcnt: int              // means something only when the handles are flagged as shared
    var hasFree: bool            // ffn is not null
    var released: nat            // how often the content was given back

    ghost var holders: set<Msg>
    ghost var owed: nat
    ghost var shared: bool

    ghost function References(): nat
      reads this
    {
      |holders| + owed
    }

    // Either there is one reference, not flagged as shared, or the counter counts the references.
    ghost predicate Valid()
      reads this
    {
      && (References() > 0 ==> released == 0)
      && (References() > 0 ==> if shared then refcnt == References() else References() == 1)
      && (References() == 0 ==> released == 1)
    }

    constructor (hasFree: bool)
      ensures holders == {} && owed == 0 && released == 0 && this.hasFree == hasFree && !shared
    {
      this.hasFree, refcnt, released := hasFree, 0, 0;
      holders, owed, shared := {}, 0, false;
    }

    // The free function and, unless the block belongs to somebody else, free.  Never twice.
    method Release()
      requires released == 0
      modifies this`released
      ensures released == 1
    {
      released := released + 1;
    }

    // atomic_counter_t::sub: whether anything is left.
    method Sub(n: nat) returns (left: bool)
      modifies this`refcnt
      ensures refcnt == old(refcnt) - n && left == (refcnt != 0)
    {
      refcnt := refcnt - n;
      left := refcnt != 0;
    }
  }

  class Msg {
    var kind: Kind
    var shared: bool
    var content: Content?

    predicate IsLong()
      reads this
    {
      kind.Long? || kind.ZeroCopy?
    }

    ghost function Held(): set<Content>
      reads this
    {
      if IsLong() && content != null then {content} else {}
    }

    // A long message is among the holders of its block and knows whether it is shared.
    ghost predicate Valid()
      reads this, Held()
    {
      IsLong() ==> content != null && this in content.holders && shared == content.shared && content.Valid()
    }

    constructor ()
      ensures kind == Plain && Valid() && !shared
    {
      kind, shared, content := Plain, false, null;
    }

    // Whatever the handle was is forgotten, so it must hold nothing.
    method Init()
      requires !IsLong()
      modifies this
      ensures kind == Plain && !shared && content == null && Valid()
    {
      kind, shared, content := Plain, false, null;
    }

    method InitLong(hasFree: bool)
      requires !IsLong()
      modifies this
      ensures kind == Long && fresh(content) && content.hasFree == hasFree
      ensures Valid() && content.Valid() && content.holders == {this} && content.owed == 0
    {
      var c := new Content(hasFree);
      c.holders := {this};
      kind, shared, content := Long, false, c;
    }

    // The block comes from outside and has not been used.
    method InitExternal(c: Content)
      requires !IsLong() && c.holders == {} && c.owed == 0 && c.released == 0
      modifies this, c
      ensures kind == ZeroCopy && content == c && c.hasFree
      ensures Valid() && c.Valid() && c.holders == {this} && c.owed == 0
    {
      c.hasFree := true;
      c.holders, c.shared := {this}, false;
      kind, shared, content := ZeroCopy, false, c;
    }

    // The last reference to go takes the content with it.
    method Close() returns (ok: bool)
      requires Valid()
      modifies this, Held()
      ensures ok == !old(kind).Closed? && kind == Closed && content == old(content)
      ensures !ok ==> unchanged(this)
      ensures Went(old(Held()))
    {
      if kind.Closed? {
        return false;
      }
      if IsLong() {
        Unhold();
      }
      kind := Closed;
      return true;
    }

    method Unhold()
      requires Valid() && IsLong()
      modifies Held(), this`kind
      ensures kind == Closed && Went(old(Held()))
    {
      ghost var n := content.References();
      var left := false;
      if shared {
        left := content.Sub(1);
      }
      content.holders := content.holders - {this};
      assert content.References() == n - 1;
      if !left {
        content.Release();
      }
      kind := Closed;
    }

    // This handle is a holder of what the other one holds only if it holds the same.
    ghost predicate Apart(src: Msg)
      reads this, src, src.Held()
    {
      src.IsLong() && src.content != null && this in src.content.holders ==> IsLong() && content == src.content
    }

    // What was held is held no more.
    twostate predicate Went(cs: set<Content>)
      reads cs
    {
      forall c | c in cs ::
        c.Valid() && c.holders == old(c.holders) - {this} && c.owed == old(c.owed) && c.shared == old(c.shared)
    }

    // Of the contents two handles held, nobody else has lost or won anything.
    twostate predicate OnlyBetween(src: Msg, cs: set<Content>)
      reads this, src, cs
    {
      forall c | c in cs ::
        && c.Valid() && c.owed == old(c.owed)
        && old(c.holders) - {this, src} <= c.holders <= old(c.holders) + {this, src}
        && (c.shared == old(c.shared) || old(c.holders) <= {this, src})
        && (this in c.holders ==> c in Held()) && (src in c.holders ==> c in src.Held())
    }

    // The handle takes over what the other one holds.  A handle that is not valid cannot even be moved to.
    method Move(src: Msg) returns (ok: bool)
      requires Valid() && src.Valid() && this != src && Apart(src) && src.Apart(this)
      modifies this, Held(), src, src.Held()
      ensures ok <==> !old(src.kind).Closed? && !old(kind).Closed?
      ensures !ok ==> unchanged(this, src) && unchanged(Held(), src.Held())
      ensures ok ==> kind == old(src.kind) && src.kind == Plain
      ensures ok ==> Held() == old(src.Held()) && content == old(src.content)
      ensures ok ==> Went(old(Held()) - Held())
      ensures OnlyBetween(src, old(Held() + src.Held()))
      ensures Valid() && src.Valid() && Held() + src.Held() <= old(Held() + src.Held())
      ensures ok ==> forall c | c in Held() ::
                c.holders == old(c.holders) - {src} + {this} && c.owed == old(c.owed) && c.shared == old(c.shared)
    {
      ok := CloseAndTake(src);
      if ok {
        MovedBetween(src);
      }
    }

    method CloseAndTake(src: Msg) returns (ok: bool)
      requires Valid() && src.Valid() && this != src && Apart(src)
      modifies this, Held(), src, src.Held()
      ensures ok <==> !old(src.kind).Closed? && !old(kind).Closed?
      ensures !ok ==> unchanged(this, src) && unchanged(Held(), src.Held())
      ensures ok ==> kind == old(src.kind) && src.kind == Plain && src.Valid() && Valid()
      ensures ok ==> Held() == old(src.Held()) && Went(old(Held()) - Held()) && content == old(src.content)
      ensures ok ==> forall c | c in Held() ::
                c.holders == old(c.holders) - {src} + {this} && c.owed == old(c.owed) && c.shared == old(c.shared)
    {
      if src.kind.Closed? {
        return false;
      }
      ok := Close();
      if ok {
        TakeFrom(src);
      }
    }

    twostate lemma MovedBetween(src: Msg)
      requires old(Valid() && src.Valid() && Apart(src) && src.Apart(this)) && this != src
      requires Valid() && !src.IsLong() && Held() == old(src.Held())
      requires Went(old(Held()) - Held())
      requires forall c | c in Held() ::
                 c.holders == old(c.holders) - {src} + {this} && c.owed == old(c.owed) && c.shared == old(c.shared)
      ensures OnlyBetween(src, old(Held() + src.Held()))
      ensures Valid() && src.Valid() && Held() + src.Held() <= old(Held() + src.Held())
    {
    }

    method TakeFrom(src: Msg)
      requires !IsLong() && src.Valid() && this != src && Apart(src)
      modifies this, src, src.Held()
      ensures kind == old(src.kind) && content == old(src.content) && src.kind == Plain
      ensures Valid() && src.Valid()
      ensures Held() == old(src.Held())
      ensures forall c | c in Held() ::
                c.holders == old(c.holders) - {src} + {this} && c.owed == old(c.owed) && c.shared == old(c.shared)
    {
      kind, shared, content := src.kind, src.shared, src.content;
      if IsLong() {
        content.holders := content.holders - {src} + {this};
      }
      src.kind := Closed;
      src.Init();
    }

    // Both handles hold the content afterwards, and both know that it is shared.
    method Copy(src: Msg) returns (ok: bool)
      requires Valid() && src.Valid() && this != src && Apart(src) && src.Apart(this)
      modifies this, Held(), src, src.Held()
      ensures ok <==> !old(src.kind).Closed? && !old(kind).Closed?
      ensures !ok ==> unchanged(this, src) && unchanged(Held(), src.Held())
      ensures ok ==> kind == src.kind == old(src.kind) && src.Valid() && Valid()
      ensures ok ==> Held() == src.Held() == old(src.Held()) && content == src.content == old(src.content)
      ensures ok ==> Went(old(Held()) - Held())
      ensures OnlyBetween(src, old(Held() + src.Held()))
      ensures Valid() && src.Valid() && Held() + src.Held() <= old(Held() + src.Held())
      ensures ok ==> forall c | c in Held() ::
                && c.holders == old(c.holders) + {this} && c.owed == old(c.owed)
                && c.shared && (!old(c.shared) ==> old(c.holders) <= {this, src})
    {
      if src.kind.Closed? {
        return false;
      }
      ok := Close();
      if ok {
        ShareWith(src);
      }
    }

    method ShareWith(src: Msg)
      requires !IsLong() && src.Valid() && this != src && Apart(src)
      modifies this, src`shared, src.Held()
      ensures kind == src.kind && content == src.content && Valid() && src.Valid()
      ensures Held() == src.Held() == old(src.Held())
      ensures forall c | c in Held() ::
                && c.holders == old(c.holders) + {this} && c.owed == old(c.owed)
                && c.shared && (!old(c.shared) ==> old(c.holders) <= {src})
    {
      if src.IsLong() {
        if src.shared {
          src.content.refcnt := src.content.refcnt + 1;
        } else {
          Only(src, src.content.holders);
          src.shared := true;
          src.content.refcnt := 2;
          src.content.shared := true;
        }
        src.content.holders := src.content.holders + {this};
      }
      kind, shared, content := src.kind, src.shared, src.content;
    }

    // Takes references in advance; one of them alone is already there.
    method AddRefs(n: nat)
      requires Valid() && !kind.Closed?
      modifies this, Held()
      ensures kind == old(kind) && content == old(content) && Valid()
      ensures IsLong() ==>
                && content.holders == old(content.holders) && content.owed == old(content.owed) + n
                && (content.shared == old(content.shared) || content.holders == {this})
    {
      if n == 0 {
        return;
      }
      if IsLong() {
        if shared {
          content.refcnt := content.refcnt + n;
        } else {
          Only(this, content.holders);
          content.refcnt := n + 1;
          shared := true;
          content.shared := true;
        }
        content.owed := content.owed + n;
      }
    }

    // The handle's own reference is one of those still to be handed out.
    ghost method Detach()
      requires Valid() && IsLong()
      modifies Held()
      ensures Detached() && content.References() == old(content.References())
      ensures content.holders == old(content.holders) - {this} && content.owed == old(content.owed) + 1
      ensures content.shared == old(content.shared)
    {
      content.holders := content.holders - {this};
      content.owed := content.owed + 1;
    }

    ghost predicate Detached()
      reads this, Held()
    {
      IsLong() ==>
        && content != null && this !in content.holders && content.Valid()
        && (content.References() > 0 ==> shared == content.shared)
    }

    // Gives references back that were not handed out.
    method RmRefs(n: nat) returns (left: bool)
      requires Detached() && !kind.Closed? && (IsLong() ==> n <= content.owed)
      modifies this, Held()
      ensures content == old(content) && Detached()
      ensures old(IsLong()) ==>
                && content.Valid() && content.holders == old(content.holders)
                && content.owed == old(content.owed) - n && content.shared == old(content.shared)
      ensures left ==> kind == old(kind) && (n > 0 ==> IsLong() && content.References() > 0)
      ensures !left ==> n > 0 && (old(IsLong()) ==> content.References() == 0)
    {
      if n == 0 {
        return true;
      }
      if !IsLong() || !shared {
        if IsLong() {
          NoneBut(content.holders, content.owed);
          content.holders, content.owed := {this}, 0;
        }
        var ok := Close();
        return false;
      }
      left := content.Sub(n);
      content.owed := content.owed - n;
      if !left {
        content.Release();
      }
    }

    // A bit-wise copy of the handle takes over one of the references taken in advance.
    method HandOut() returns (m: Msg)
      requires Detached() && !kind.Closed? && (IsLong() ==> content.owed > 0)
      modifies Held()
      ensures fresh(m) && m.kind == kind && m.Valid() && Detached()
      ensures IsLong() ==>
                && m.content == content && content.References() == old(content.References())
                && content.holders == old(content.holders) + {m} && content.owed == old(content.owed) - 1
                && content.shared == old(content.shared)
    {
      m := new Msg();
      if IsLong() {
        content.holders := content.holders + {m};
        content.owed := content.owed - 1;
      }
      m.kind, m.shared, m.content := kind, shared, content;
    }
  }

  lemma Only<T>(x: T, s: set<T>)
    requires x in s && |s| == 1
    ensures s == {x}
  {
    assert |s - {x}| == 0;
  }

  lemma NoneBut<T>(s: set<T>, n: nat)
    requires |s| + n == 1 && n > 0
    ensures s == {} && n == 1
  {
  }
}
