/** The navigation menu served to the front end. */
module Navigation {
  import opened Outcomes

  datatype NavItem = NavItem(id: string, title: string, path: string, isActive: bool)

  /** The five menu entries, none active. */
  const Menu: seq<NavItem> := [
    NavItem("home", "Главная", "/", false),
    NavItem("reviews", "Отзывы", "#reviews", false),
    NavItem("events", "Мероприятия", "#events", false),
    NavItem("gallery", "Галерея", "#gallery", false),
    NavItem("contacts", "Контакты", "#contacts", false)
  ]

  /** GET /nav?active=: the menu with the entry whose id is `active` marked;
      an absent or empty `active` marks nothing. */
  method GetNavigation(active: Option<string>) returns (items: seq<NavItem>)
    ensures |items| == |Menu|
    ensures forall i :: 0 <= i < |items| ==>
              items[i].id == Menu[i].id && items[i].title == Menu[i].title && items[i].path == Menu[i].path
    ensures forall i :: 0 <= i < |items| ==> (items[i].isActive <==> active == Some(Menu[i].id))
    ensures forall i, j :: 0 <= i < j < |items| ==> !(items[i].isActive && items[j].isActive)
  {
    items := Menu;
    if active.Some? && active.value != "" {
      var i := 0;
      while i < |items|
        invariant 0 <= i <= |items| == |Menu|
        invariant forall k :: 0 <= k < |items| ==>
                    items[k].id == Menu[k].id && items[k].title == Menu[k].title && items[k].path == Menu[k].path
        invariant forall k :: 0 <= k < i ==> (items[k].isActive <==> active.value == Menu[k].id)
        invariant forall k :: i <= k < |items| ==> !items[k].isActive
      {
        if items[i].id == active.value {
          items := items[i := items[i].(isActive := true)];
        }
        i := i + 1;
      }
    }
  }
}
