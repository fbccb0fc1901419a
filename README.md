# CUIController core: control search and widget-pool resize

A Dafny model of the two algorithmic parts of `CUIController`, the base
class of every UI screen in CosmosEngine:

- **Control search.** `DFSFindObject` walks the children of a node in
  index order. At each child it compares the name, then searches that
  child's subtree, and only then moves on to the next sibling. It returns
  the first match or null. The node it starts from is never compared.
  `FindGameObject` and `FindControl` call it from the screen's own node and
  fail softly: on a miss they log an error and return null. `GetControl`
  resolves a slash-separated path with the engine's `Transform.Find`. It
  then returns either the node itself or one of its components.
- **Widget-pool resize.** `_ResizeUIWidgetContainerGameObjects` treats a
  grid's or table's children as a pool. Slots `0 .. resizeCount-1` are
  made active. A clone of the template, with its local transform reset, is
  appended for every slot the container lacks. Every later slot is made
  inactive. Children are never removed or reordered, so a later grow
  reuses the widgets that were switched off.

Modules:

- `Wrappers` holds `Option`, which stands for a nullable reference.
- `ControlResolver` is pure. Scene nodes are values `Node(name, children)`.
  A lookup returns a `Lookup(value, log)` pair, where `log` is the error
  line the engine would write.
- `WidgetPool` is imperative. `WidgetNode` is a class with a mutable
  `active` flag and a `transformIsIdentity` flag. `Container` is a class
  whose `children: seq<WidgetNode>` grows in place. The resize is a method
  with two `for` loops, as in the source.

The search is stated against an independent reference definition. That
definition is the first node with the name in the pre-order list
`Descendants(p)` of the proper descendants of `p`. The list is shown to
hold exactly the nodes of the order-free relation `IsProperDescendant`.
The resize is stated against `ResizedFlags`, which gives the active flags
after a resize.

## Model

| member | source | states |
|---|---|---|
| `ControlResolver.DFSFindObject` | Assets/CosmosEngine/Scripts/BaseModules/UIModule/CUIController.cs:113-127 | Computed by `FindFrom`, which follows the loop over the children. The result is the first node named `name` in the pre-order list of the parent's proper descendants. A found node has that name and is a descendant. Null comes back exactly when no descendant has the name. |
| `ControlResolver.FindFromIsFirstNamed` | Assets/CosmosEngine/Scripts/BaseModules/UIModule/CUIController.cs:115-124 | The loop from child `i` on, which compares a child and then searches its subtree before the next sibling, returns the pre-order-first match among the descendants reached from child `i` on. |
| `ControlResolver.RootNameIgnored` | Assets/CosmosEngine/Scripts/BaseModules/UIModule/CUIController.cs:115-119 | The parent's own name is never compared. Renaming the root never changes the result. |
| `ControlResolver.DFSFindObjectFindsDescendant` | Assets/CosmosEngine/Scripts/BaseModules/UIModule/CUIController.cs:113-127 | The search succeeds if and only if some proper descendant of the parent has the name. What it returns is a proper descendant. |
| `ControlResolver.FindGameObject` | Assets/CosmosEngine/Scripts/BaseModules/UIModule/CUIController.cs:96-106 | Returns null exactly when no descendant of the screen's node has the name. A non-null result is the pre-order-first descendant with that name, the same node `DFSFindObject` returns. An error is logged, with the message "Find GemeObject Error: " + name, if and only if the result is null. |
| `ControlResolver.FindControl` | Assets/CosmosEngine/Scripts/BaseModules/UIModule/CUIController.cs:84-94 | Logs "Find UI Control Error: " + name and returns null exactly when no descendant has the name. Otherwise nothing is logged and the result is the component lookup on the pre-order-first descendant with that name. That lookup may itself return null. |
| `ControlResolver.GetControl` | Assets/CosmosEngine/Scripts/BaseModules/UIModule/CUIController.cs:59-76 | The path is resolved from `findTrans`, or from the screen's own node when `findTrans` is null (the default). `isLog` defaults to on. When the path lookup misses, the result is null and "Get UI Control Error: " + uri is logged exactly when `isLog` is set. On a hit, nothing is logged. A GameObject request yields the found node itself. A component request yields the component lookup on that node. |
| `ControlResolver.GetControlLogFlagOnlyLogs` | Assets/CosmosEngine/Scripts/BaseModules/UIModule/CUIController.cs:65-70 | `isLog` never changes what is returned. With `isLog` off, nothing is logged. |
| `WidgetPool.WidgetNode.Instantiate` | Assets/CosmosEngine/Scripts/BaseModules/UIModule/CUIController.cs:180 | A clone copies the template's active flag and transform state. |
| `WidgetPool.WidgetNode.SetActive` | Assets/CosmosEngine/Scripts/BaseModules/UIModule/CUIController.cs:186-188 | Sets the node's own active flag and nothing else. |
| `WidgetPool.ResetLocalTransform` | Assets/CosmosEngine/Scripts/BaseModules/UIModule/CUIController.cs:142-147 | Afterwards the local transform is the identity. The active flag is unchanged. |
| `WidgetPool.Container.AppendChild` | Assets/CosmosEngine/Scripts/BaseModules/UIModule/CUIController.cs:181 | A node parented under the container becomes its last child. No node ever sits in two slots. |
| `WidgetPool.ResizeUIWidgetContainerGameObjects` | Assets/CosmosEngine/Scripts/BaseModules/UIModule/CUIController.cs:170-198 | Afterwards the child count is `max(old count, resizeCount)`. The old children keep their slots, in order. Every slot past the old count holds a fresh clone whose transform is reset, and the old children's transforms are untouched. Each slot `i` is active if and only if `i < resizeCount`, so the flags equal `ResizedFlags(old flags, resizeCount)`. No widget sits in two slots. |
| `WidgetPool.ResizeIdempotent` | Assets/CosmosEngine/Scripts/BaseModules/UIModule/CUIController.cs:175-196 | After one resize to `k` the pool has at least `k` slots. A second resize to `k` therefore creates no clone and leaves every flag as it was. |
| `WidgetPool.ResizeToZero` | Assets/CosmosEngine/Scripts/BaseModules/UIModule/CUIController.cs:191-196 | A resize to 0 keeps the child count and switches every child off. |
| `WidgetPool.ResizeHistory` | Assets/CosmosEngine/Scripts/BaseModules/UIModule/CUIController.cs:175-196 | Over any series of resizes, the pool ends at the largest of its initial size and every requested count. Surplus widgets are reused rather than recreated. Only the last count decides which slots are active. |
| `WidgetPool.ShrinkThenRegrowReuses` | Assets/CosmosEngine/Scripts/BaseModules/UIModule/CUIController.cs:175-196 | Resizing an empty pool to 5, then 2, then 4 leaves five widgets, and the first four are active. The third call clones nothing. |

## Left out

- Scene nodes in the search are values, not references. "The node returned" means the node at the pre-order position the lemmas name. Reference identity is modelled only for the widget pool.
- `Transform.Find` and `GetComponent` are Unity engine calls whose code is not part of this model. `GetControl`, `FindControl` and `GetControl<T>` take them as function parameters. The cast in the generic `GetControl<T>` (line 54-57) is not modelled.
- `CDebug.LogError` output is modelled as the returned message, not as a side effect.
- Lifecycle hooks `OnInit`, `OnBeforeOpenHook`, `OnOpen`, `OnBeforeCloseHook` and `OnClose` (lines 27-47) are left out. They are empty or return a constant `true`.
- `OpenWindow` and `CloseWindow` (lines 203-215) are left out. They only forward to the `CUIModule` singleton, which is not part of this model.
- `DestroyGameObjectChildren` (line 133) is left out. It forwards to `CTool`, which is not part of this model.
- `GetFromArgs` (line 225) is left out. It forwards to an extension method `Get<T>` that is not part of this model.
- `ResizeUIGridGameObjects`, `ResizeUITableGameObjects` and `ResizeCUITableGridGameObjects` (lines 153-169) are not modelled separately. Each is the resize followed by an NGUI `Reposition()` layout call, which is not part of this model.
- Only the identity flag of a transform is modelled. The vector and quaternion values of the reset are left out.
- Instantiated clones are modelled without their sub-hierarchy.
- `WidgetPool.ResizeUIWidgetContainerGameObjects` requires a non-null template only when a clone is needed (`resizeCount` above the child count); a shrink works with a null template, as in the code. The null check at line 172-173 assigns `default(GameObject)`, which is null again, so the code has no default prototype and `Instantiate(null)` would fail. The model follows the code.
- A negative `resizeCount` is ruled out by its type (`nat`). With one, the code would skip the first loop and then call `GetChild` with a negative index.
