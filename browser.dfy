/** The browser state the pages share: the `localStorage` entries and the class of the
    document's root element. */
module Browser {
  import opened Optional

  class Storage {
    var items: map<string, string>
    var documentClass: string

    constructor (items0: map<string, string>, documentClass0: string)
      ensures items == items0 && documentClass == documentClass0
    {
      items := items0;
      documentClass := documentClass0;
    }

    /** `getItem`: the stored text, or `null`. */
    function GetItem(key: string): (v: Option<string>)
      reads this
      ensures v.Some? <==> key in items
      ensures v.Some? ==> v.value == items[key]
    {
      if key in items then Some(items[key]) else None
    }

    /** `setItem`: this entry is written and no other changes. */
    method SetItem(key: string, value: string)
      modifies this
      ensures items == old(items)[key := value]
      ensures documentClass == old(documentClass)
    {
      items := items[key := value];
    }

    /** Assigning the root element's class. */
    method SetDocumentClass(name: string)
      modifies this
      ensures documentClass == name && items == old(items)
    {
      documentClass := name;
    }
  }
}
